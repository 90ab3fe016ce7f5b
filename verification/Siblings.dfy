/** The child list of an array or object as a sequence of nodes: append, insert, detach
    and replace relink next, prev and child, and are proved to be the operations on
    sequences that their names promise. */
module Siblings {
  import opened Lists
  import opened Options
  import opened NumberCodec
  import opened Json
  import opened Heap
  import opened Construction

  /** The links of the node at position i: next runs to null, prev runs back, and the
      first one's prev is the last one. */
  ghost predicate Links(s: seq<Node>, i: nat)
    requires i < |s|
    reads s
  {
    && s[i].next == (if i + 1 < |s| then s[i + 1] else null)
    && s[i].prev == (if i == 0 then s[|s| - 1] else s[i - 1])
  }

  /** The children of parent, in order. */
  ghost predicate IsList(parent: Node, s: seq<Node>)
    reads parent, s
  {
    && parent.child == At(s, 0)
    && (forall i :: 0 <= i < |s| ==> Links(s, i))
    && (forall i, j :: 0 <= i < j < |s| ==> s[i] != s[j])
    && parent !in s
  }

  /** A node in no list. */
  ghost predicate Detached(n: Node)
    reads n
  {
    n.next == null && n.prev == null
  }

  function At(s: seq<Node>, index: nat): Node? {
    if index < |s| then s[index] else null
  }

  function Only(n: Node?): set<Node> {
    if n == null then {} else {n}
  }

  method GetArraySize(parent: Node?, ghost s: seq<Node>) returns (size: nat)
    requires parent != null ==> IsList(parent, s)
    ensures size == if parent == null then 0 else |s|
  {
    size := 0;
    if parent == null {
      return;
    }
    var child := parent.child;
    while child != null
      invariant size <= |s| && child == At(s, size)
      decreases |s| - size
    {
      assert Links(s, size);
      size := size + 1;
      child := child.next;
    }
  }

  method GetArrayItem(parent: Node?, index: nat, ghost s: seq<Node>) returns (item: Node?)
    requires parent != null ==> IsList(parent, s)
    ensures item == if parent == null || index >= |s| then null else s[index]
  {
    if parent == null {
      return null;
    }
    item := parent.child;
    var left := index;
    while item != null && left > 0
      invariant 0 <= left <= index && item == At(s, index - left)
      decreases left
    {
      assert Links(s, index - left);
      left := left - 1;
      item := item.next;
    }
  }

  method SuffixObject(prev: Node, item: Node)
    modifies prev`next, item`prev
    ensures prev.next == item && item.prev == prev
  {
    prev.next := item;
    item.prev := prev;
  }

  method AddItemToArray(parent: Node?, item: Node?, ghost s: seq<Node>) returns (ok: bool)
    requires parent != null ==> IsList(parent, s)
    requires item != null ==> Detached(item) && item !in s
    modifies Only(parent)`child, Only(item)`next, Only(item)`prev, s`next, s`prev
    ensures ok <==> parent != null && item != null && parent != item
    ensures ok ==> IsList(parent, s + [item])
    ensures !ok ==> unchanged(Only(parent), Only(item), s)
  {
    if item == null || parent == null || parent == item {
      return false;
    }
    var child := parent.child;
    if child == null {
      parent.child := item;
      item.prev := item;
      item.next := null;
      assert Links(s + [item], 0);
    } else {
      assert Links(s, 0) && Links(s, |s| - 1);
      if child.prev != null {
        SuffixObject(child.prev, item);
        parent.child.prev := item;
      }
      ghost var s' := s + [item];
      forall i | 0 <= i < |s'|
        ensures Links(s', i)
      {
        assert i < |s| ==> old(Links(s, i));
      }
    }
    ok := true;
  }

  /** Insertion in front of position which, or at the end when there is no such position. */
  method InsertItemInArray(parent: Node?, which: int, newitem: Node?, ghost s: seq<Node>) returns (ok: bool)
    requires parent != null ==> IsList(parent, s)
    requires newitem != null ==> Detached(newitem) && newitem !in s && newitem != parent
    modifies Only(parent)`child, Only(newitem)`next, Only(newitem)`prev, s`next, s`prev
    ensures ok <==> which >= 0 && newitem != null && parent != null
    ensures ok ==> var k := if which < |s| then which else |s|; IsList(parent, s[..k] + [newitem] + s[k..])
    ensures !ok ==> unchanged(Only(parent), Only(newitem), s)
  {
    if which < 0 || newitem == null {
      return false;
    }
    var afterInserted := GetArrayItem(parent, which, s);
    if afterInserted == null {
      ok := AddItemToArray(parent, newitem, s);
      if ok {
        assert s[..|s|] + [newitem] + s[|s|..] == s + [newitem];
      }
      return;
    }
    assert Links(s, which) && (which > 0 ==> Links(s, which - 1));
    if afterInserted != parent.child && afterInserted.prev == null {
      return false;
    }
    newitem.next := afterInserted;
    newitem.prev := afterInserted.prev;
    afterInserted.prev := newitem;
    if afterInserted == parent.child {
      parent.child := newitem;
    } else {
      newitem.prev.next := newitem;
    }
    ok := true;
    ghost var s' := s[..which] + [newitem] + s[which..];
    forall i | 0 <= i < |s'|
      ensures Links(s', i)
    {
      assert i < which ==> old(Links(s, i)) && s'[i] == s[i];
      assert i > which ==> old(Links(s, i - 1)) && s'[i] == s[i - 1];
    }
  }

  /** item, at position k, leaves the list. A node whose prev is null is in no list. */
  method DetachItemViaPointer(parent: Node?, item: Node?, ghost s: seq<Node>, ghost k: nat) returns (detached: Node?)
    requires parent != null ==> IsList(parent, s)
    requires parent != null && item != null ==> At(s, k) == item || (item !in s && item.prev == null)
    modifies Only(parent)`child, s`next, s`prev
    ensures detached == if parent != null && item != null && item in s then item else null
    ensures detached != null ==> Detached(item) && IsList(parent, s[..k] + s[k + 1..])
    ensures detached == null ==> unchanged(Only(parent), s)
  {
    if parent == null || item == null || (item != parent.child && item.prev == null) {
      assert parent != null && item != null && At(s, k) == item ==> Links(s, k);
      return null;
    }
    assert Links(s, k) && Links(s, 0) && Links(s, |s| - 1);
    assert k + 1 < |s| ==> Links(s, k + 1);
    assert k > 0 ==> Links(s, k - 1);
    if item != parent.child {
      item.prev.next := item.next;
    }
    if item.next != null {
      item.next.prev := item.prev;
    }
    if item == parent.child {
      parent.child := item.next;
    } else if item.next == null {
      parent.child.prev := item.prev;
    }
    item.prev := null;
    item.next := null;
    detached := item;
    ghost var s' := s[..k] + s[k + 1..];
    forall i | 0 <= i < |s'|
      ensures Links(s', i)
    {
      assert i < k ==> old(Links(s, i)) && s'[i] == s[i];
      assert i >= k ==> old(Links(s, i + 1)) && s'[i] == s[i + 1];
    }
  }

  method DetachItemFromArray(parent: Node?, which: int, ghost s: seq<Node>) returns (detached: Node?)
    requires parent != null ==> IsList(parent, s)
    modifies Only(parent)`child, s`next, s`prev
    ensures detached == if parent != null && 0 <= which < |s| then s[which] else null
    ensures detached != null ==> Detached(detached) && IsList(parent, s[..which] + s[which + 1..])
    ensures detached == null ==> unchanged(Only(parent), s)
  {
    if which < 0 {
      return null;
    }
    var item := GetArrayItem(parent, which, s);
    detached := DetachItemViaPointer(parent, item, s, which);
  }

  /** The relinking of cJSON_ReplaceItemViaPointer. */
  method Substitute(parent: Node, item: Node, replacement: Node, ghost s: seq<Node>, ghost k: nat)
    requires IsList(parent, s) && At(s, k) == item
    requires Detached(replacement) && replacement !in s && replacement != parent
    modifies parent`child, replacement`next, replacement`prev, s`next, s`prev
    ensures IsList(parent, s[k := replacement]) && Detached(item)
  {
    assert Links(s, k) && Links(s, 0) && Links(s, |s| - 1);
    assert k + 1 < |s| ==> Links(s, k + 1);
    assert k > 0 ==> Links(s, k - 1);
    replacement.next := item.next;
    replacement.prev := item.prev;
    if replacement.next != null {
      replacement.next.prev := replacement;
    }
    if parent.child == item {
      if parent.child.prev == parent.child {
        replacement.prev := replacement;
      }
      parent.child := replacement;
    } else {
      if replacement.prev != null {
        replacement.prev.next := replacement;
      }
      if replacement.next == null {
        parent.child.prev := replacement;
      }
    }
    item.next := null;
    item.prev := null;
    ghost var s' := s[k := replacement];
    forall i | 0 <= i < |s'|
      ensures Links(s', i)
    {
      assert old(Links(s, i));
    }
  }

  /** The replaced item and all that it owns is freed. */
  method ReplaceItemViaPointer(heap: Allocator, parent: Node?, item: Node?, replacement: Node?, ghost s: seq<Node>,
                               ghost k: nat, ghost t: Shape)
    returns (ok: bool)
    requires parent != null ==> IsList(parent, s)
    requires parent != null && item != null && parent.child != null ==> At(s, k) == item
    requires replacement != null ==> replacement == item
                                     || (Detached(replacement) && replacement !in s && replacement != parent)
    requires parent != null && item != null ==> t.node == item && Holds(t) && Apart(t) && Owned(t) <= heap.live
    requires parent != null && item != null ==> parent !in Owned(t) && replacement !in Owned(t) - {t.node}
    requires parent != null && item != null ==> forall i :: 0 <= i < |s| && i != k ==> s[i] !in Owned(t)
    modifies heap`live
    modifies if parent == null || item == null || replacement == null || replacement == item then {} else Owned(t)
    modifies Only(parent)`child, Only(replacement)`next, Only(replacement)`prev, s`next, s`prev
    ensures ok <==> parent != null && old(parent.child) != null && item != null && replacement != null
    ensures ok ==> IsList(parent, s[k := replacement])
    ensures heap.live == if ok && replacement != item then old(heap.live) - Owned(t) else old(heap.live)
    ensures !ok || replacement == item ==> unchanged(Only(parent), Only(item), Only(replacement), s)
  {
    if parent == null || parent.child == null || replacement == null || item == null {
      return false;
    }
    if replacement == item {
      assert s[k := replacement] == s;
      return true;
    }
    Substitute(parent, item, replacement, s, k);
    assert Holds(t);
    DeleteAlone(heap, item, t);
    ok := true;
  }

  // ---- the list of a tree ------------------------------------------------------------------

  function NodesOf(ts: List<Shape>): seq<Node> {
    if ts.Nil? then [] else [ts.head.node] + NodesOf(ts.tail)
  }

  ghost predicate HoldsEach(ts: List<Shape>)
    reads OwnedList(ts)
    decreases ts
  {
    ts.Cons? ==> Holds(ts.head) && HoldsEach(ts.tail)
  }

  lemma {:induction false} NodesAreOwned(ts: List<Shape>)
    ensures forall n :: n in NodesOf(ts) ==> n in OwnedList(ts)
    decreases ts
  {
    if ts.Cons? {
      NodesAreOwned(ts.tail);
    }
  }

  lemma {:induction false} LastOfNodes(ts: List<Shape>)
    requires ts.Cons?
    ensures NodesOf(ts) != [] && LastNode(ts) == NodesOf(ts)[|NodesOf(ts)| - 1]
    decreases ts
  {
    if ts.tail.Cons? {
      LastOfNodes(ts.tail);
    }
  }

  /** Siblings that the tree predicates describe are linked like the sequence of their nodes. */
  lemma {:induction false} ChainedIsLinked(ts: List<Shape>, before: Node?, i: nat)
    requires Chained(ts, before) && i < |NodesOf(ts)|
    ensures var s := NodesOf(ts); s[i].next == At(s, i + 1) && s[i].prev == if i == 0 then before else s[i - 1]
    decreases ts
  {
    var s, rest := NodesOf(ts), NodesOf(ts.tail);
    if i == 0 {
      assert HeadNode(ts.tail) == At(rest, 0);
    } else {
      ChainedIsLinked(ts.tail, ts.head.node, i - 1);
      assert s[i] == rest[i - 1] && At(s, i + 1) == At(rest, i);
      assert i > 1 ==> s[i - 1] == rest[i - 2];
    }
  }

  lemma {:induction false} SiblingsDiffer(ts: List<Shape>, i: nat, j: nat)
    requires ApartList(ts) && i < j < |NodesOf(ts)|
    ensures NodesOf(ts)[i] != NodesOf(ts)[j]
    decreases ts
  {
    if i == 0 {
      NodesAreOwned(ts.tail);
      assert NodesOf(ts)[j] == NodesOf(ts.tail)[j - 1];
    } else {
      SiblingsDiffer(ts.tail, i - 1, j - 1);
    }
  }

  lemma {:induction false} ChainedHoldsEach(ts: List<Shape>, before: Node?)
    requires Chained(ts, before)
    ensures HoldsEach(ts)
    decreases ts
  {
    if ts.Cons? {
      ChainedHoldsEach(ts.tail, ts.head.node);
    }
  }

  /** What every parsed or duplicated array or object satisfies. */
  lemma HeldChildrenAreAList(t: Shape)
    requires Holds(t) && Apart(t) && !t.lent && !t.open
    ensures IsList(t.node, NodesOf(t.kids)) && HoldsEach(t.kids)
  {
    var s := NodesOf(t.kids);
    ChainedHoldsEach(t.kids, LastNode(t.kids));
    NodesAreOwned(t.kids);
    if t.kids.Cons? {
      LastOfNodes(t.kids);
    }
    forall i | 0 <= i < |s|
      ensures Links(s, i)
    {
      ChainedIsLinked(t.kids, LastNode(t.kids), i);
    }
    forall i, j | 0 <= i < j < |s|
      ensures s[i] != s[j]
    {
      SiblingsDiffer(t.kids, i, j);
    }
  }

  lemma {:induction false} LinkedIsChained(s: seq<Node>, i: nat, ts: List<Shape>)
    requires i <= |s| && s[i..] == NodesOf(ts) && HoldsEach(ts)
    requires forall k :: 0 <= k < |s| ==> Links(s, k)
    ensures i < |s| ==> Chained(ts, if i == 0 then s[|s| - 1] else s[i - 1])
    decreases ts
  {
    if ts.Cons? {
      assert s[i] == s[i..][0] && s[i + 1..] == s[i..][1..];
      assert Links(s, i);
      LinkedIsChained(s, i + 1, ts.tail);
    }
  }

  /** And back: a node whose children form a list of trees is a tree again. The module
      Trees uses this for each of the operations above. */
  lemma ListOfTreesIsATree(t: Shape)
    requires Fields(t) && !t.lent && !t.open && IsList(t.node, NodesOf(t.kids)) && HoldsEach(t.kids)
    ensures Holds(t)
  {
    var s := NodesOf(t.kids);
    assert s[0..] == s;
    LinkedIsChained(s, 0, t.kids);
    if t.kids.Cons? {
      LastOfNodes(t.kids);
    }
  }

  // ---- cJSON_CreateIntArray ------------------------------------------------------------------

  function IntsOf(numbers: seq<int>): List<Json> {
    if numbers == [] then Nil else Cons(Number(numbers[0] as real), IntsOf(numbers[1..]))
  }

  lemma {:induction false} IntsAreInOrder(numbers: seq<int>, i: nat)
    ensures Length(IntsOf(numbers)) == |numbers|
    ensures i < |numbers| ==> Nth(IntsOf(numbers), i) == Number(numbers[i] as real)
    decreases |numbers|
  {
    if numbers != [] {
      IntsAreInOrder(numbers[1..], if i == 0 then 0 else i - 1);
    }
  }

  method CreateNumber(heap: Allocator, num: real) returns (item: Node?, ghost made: List<Shape>)
    modifies heap
    ensures heap.denials >= old(heap.denials) && (item != null <==> heap.denials == old(heap.denials))
    ensures item == null ==> heap.live == old(heap.live)
    ensures item != null ==>
              made == Cons(Shape(item, NumberKind, num, ToInt(num), None, None, false, false, false, Nil), Nil)
    ensures item != null ==> Holds(made.head) && Apart(made.head) && Owned(made.head) == {item} && Detached(item)
    ensures item != null ==> fresh(item) && heap.live == old(heap.live) + {item}
  {
    made := Nil;
    item := heap.NewItem();
    if item != null {
      item.kind := NumberKind;
      item.valuedouble := num;
      item.valueint := ToInt(num);
      made := Cons(Shape(item, NumberKind, num, ToInt(num), None, None, false, false, false, Nil), Nil);
    }
  }

  method CreateArray(heap: Allocator) returns (item: Node?, ghost made: List<Shape>)
    modifies heap
    ensures heap.denials >= old(heap.denials) && (item != null <==> heap.denials == old(heap.denials))
    ensures item == null ==> heap.live == old(heap.live)
    ensures item != null ==> made == Cons(Shape(item, ArrayKind, 0.0, 0, None, None, false, false, false, Nil), Nil)
    ensures item != null ==> Holds(made.head) && Apart(made.head) && Owned(made.head) == {item} && Detached(item)
    ensures item != null ==> fresh(item) && heap.live == old(heap.live) + {item} && item.child == null
  {
    made := Nil;
    item := heap.NewItem();
    if item != null {
      item.kind := ArrayKind;
      made := Cons(Shape(item, ArrayKind, 0.0, 0, None, None, false, false, false, Nil), Nil);
    }
  }

  lemma IntsUnfold(numbers: seq<int>, i: nat)
    requires i < |numbers|
    ensures IntsOf(numbers[i..]) == Cons(Number(numbers[i] as real), IntsOf(numbers[i + 1..]))
  {
    assert numbers[i..][1..] == numbers[i + 1..];
  }

  lemma HeldFields(t: Shape)
    requires Holds(t)
    ensures Fields(t)
  {
  }

  /** One turn of the loop: a number is linked behind the others, or all of it is deleted. */
  method NextNumber(heap: Allocator, a: Node, p: Node?, number: int, ghost d: Shape, ghost done: List<Shape>)
    returns (n: Node?, ghost built: List<Shape>)
    requires d.node == a && Leafy(d) && Fields(d) && Apart(d) && Owned(d) == {a} && Built(done, a.child, p)
    requires d.name.None? && d.str.None? && Detached(a) && a !in OwnedList(done) && {a} + OwnedList(done) <= heap.live
    modifies heap, a, OwnedList(done)
    ensures heap.denials >= old(heap.denials) && (n != null <==> heap.denials == old(heap.denials))
    ensures n == null ==> heap.live == old(heap.live) - {a} - OwnedList(done)
    ensures n != null ==> Fields(d) && Built(built, a.child, n) && Detached(a)
    ensures n != null ==> fresh(OwnedList(built) - OwnedList(done)) && OwnedList(done) <= OwnedList(built)
    ensures n != null ==> heap.live == old(heap.live) + OwnedList(built) && a !in OwnedList(built)
    ensures n != null ==> ValuesOf(built) == Cons(Number(number as real), ValuesOf(done))
  {
    hide Apart, Owned, Back, Built, LastNode, Chained;
    NotOwned(heap, done);
    ghost var one;
    n, one := CreateNumber(heap, number as real);
    built := done;
    if n == null {
      Discard(heap, a, p, d, done);
      return;
    }
    LinkChild(a, p, n, d, done, one.head, heap.live);
    built := Cons(one.head, done);
  }

  /** The array holds exactly the given numbers; a refused allocation leaves nothing behind. */
  method CreateIntArray(heap: Allocator, numbers: array?<int>, count: int) returns (a: Node?, ghost made: List<Shape>)
    requires numbers != null ==> count <= numbers.Length
    modifies heap
    ensures heap.denials >= old(heap.denials)
    ensures a != null <==> count >= 0 && numbers != null && heap.denials == old(heap.denials)
    ensures a != null ==> made.Cons? && made.head.node == a && Holds(made.head) && Apart(made.head) && Detached(a)
    ensures a != null ==> ValueOf(made.head) == Array(IntsOf(numbers[..count]))
    ensures a != null ==> fresh(Owned(made.head)) && heap.live == old(heap.live) + Owned(made.head)
    ensures a == null ==> heap.live == old(heap.live)
  {
    hide Apart, Owned, CellIs, Back, Built, LastNode, Chained, Fields;
    a, made := null, Nil;
    if count < 0 || numbers == null {
      return;
    }
    a, made := CreateArray(heap);
    if a == null {
      return;
    }
    ghost var d, ints := made.head, numbers[..count];
    HeldFields(d);
    var n, p: Node? := null, null;
    ghost var done := Nil;
    NoneBuilt();
    assert ints[0..] == ints;
    var i := 0;
    while i < count
      invariant 0 <= i <= count && n == p
      invariant Fields(d) && Apart(d) && Owned(d) == {a} && Built(done, a.child, p) && Detached(a)
      invariant fresh(OwnedList(done)) && a !in OwnedList(done)
      invariant heap.live == old(heap.live) + {a} + OwnedList(done) && heap.denials == old(heap.denials)
      invariant RevOnto(ValuesOf(done), IntsOf(ints[i..])) == IntsOf(ints)
    {
      n, done := NextNumber(heap, a, p, numbers[i], d, done);
      if n == null {
        return null, Nil;
      }
      IntsUnfold(ints, i);
      p := n;
      i := i + 1;
    }
    ghost var full := CloseChildren(a, n, d, done, heap.live);
    ValuesInOrder(done, Nil);
    assert ints[count..] == [];
    made := Cons(full, Nil);
  }
}
