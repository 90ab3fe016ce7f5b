/** The heap side of cJSON: nodes, an allocator that may refuse, what a tree owns, and
    cJSON_Delete. */
module Heap {
  import opened Bytes
  import opened Lists
  import opened Options
  import opened NumberCodec
  import opened Json

  datatype Kind = Invalid | NullKind | FalseKind | TrueKind | NumberKind | StringKind | ArrayKind | ObjectKind

  /** struct cJSON. The two flag bits of type are fields of their own. */
  class Node {
    var next: Node?
    var prev: Node?
    var child: Node?
    var kind: Kind
    var isReference: bool
    var constName: bool
    var valuestring: array?<byte>
    var valueint: int
    var valuedouble: real
    var name: array?<byte>

    constructor ()
      ensures next == null && prev == null && child == null && kind == Invalid
      ensures !isReference && !constName && valuestring == null && name == null && valuedouble == 0.0 && valueint == 0
    {
      next, prev, child, kind := null, null, null, Invalid;
      isReference, constName, valuestring, name := false, false, null, null;
      valueint, valuedouble := 0, 0.0;
    }
  }

  /** malloc and free. Which requests are granted is arbitrary; live is what has been
      granted and not freed, and freeing anything else is not allowed. */
  class Allocator {
    const grants: nat -> bool
    var requests: nat
    ghost var live: set<object>
    ghost var denials: nat

    constructor (grants: nat -> bool)
      ensures this.grants == grants && requests == 0 && live == {} && denials == 0
    {
      this.grants := grants;
      requests, live, denials := 0, {}, 0;
    }

    method NewItem() returns (n: Node?)
      modifies this
      ensures n == null ==> live == old(live) && denials > old(denials)
      ensures n != null ==> fresh(n) && live == old(live) + {n} && denials == old(denials)
      ensures n != null ==> n.next == null && n.prev == null && n.child == null && n.kind == Invalid
      ensures n != null ==> !n.isReference && !n.constName && n.valuestring == null && n.name == null
      ensures n != null ==> n.valuedouble == 0.0 && n.valueint == 0
    {
      if grants(requests) {
        n := new Node();
        live := live + {n};
      } else {
        n := null;
        denials := denials + 1;
      }
      requests := requests + 1;
    }

    method NewBytes(size: nat) returns (a: array?<byte>)
      modifies this
      ensures a == null ==> live == old(live) && denials > old(denials)
      ensures a != null ==> fresh(a) && a.Length == size && live == old(live) + {a} && denials == old(denials)
    {
      if grants(requests) {
        a := new byte[size];
        live := live + {a};
      } else {
        a := null;
        denials := denials + 1;
      }
      requests := requests + 1;
    }

    method Free(o: object)
      requires o in live
      modifies this`live
      ensures live == old(live) - {o}
    {
      live := live - {o};
    }
  }

  // ---- trees ------------------------------------------------------------------------------

  /** A C string: the bytes of text, then a NUL, at the start of buf. */
  datatype Cell = Cell(buf: array<byte>, text: bytes)

  /** What stands at a node: its fields, with pointers replaced by what they point to.
      The node's own next and prev belong to the list it is in. open marks a node whose
      children are still being linked, so that their head has no prev yet. */
  datatype Shape = Shape(node: Node, kind: Kind, num: real, whole: int, str: Option<Cell>, name: Option<Cell>,
                         lent: bool, constName: bool, open: bool, kids: List<Shape>)

  function Buffers(c: Option<Cell>): set<object> {
    match c
    case None => {}
    case Some(cell) => {cell.buf}
  }

  /** What deleting the tree frees: a node flagged as reference lends its child and
      valuestring from another tree, and a constant name belongs to nobody. */
  function Owned(t: Shape): set<object>
    decreases t, 1
  {
    {t.node} + (if t.constName then {} else Buffers(t.name))
    + (if t.lent then {} else Buffers(t.str) + OwnedList(t.kids))
  }

  function OwnedList(ts: List<Shape>): set<object>
    decreases ts, 0
  {
    match ts
    case Nil => {}
    case Cons(t, rest) => Owned(t) + OwnedList(rest)
  }

  /** The nodes that a walk from t meets if it does not enter what is borrowed. */
  function Met(t: Shape): List<Shape>
    decreases t, 1
  {
    Cons(t, if t.lent then Nil else MetIn(t.kids))
  }

  function MetIn(ts: List<Shape>): List<Shape>
    decreases ts, 0
  {
    match ts
    case Nil => Nil
    case Cons(t, rest) => Concat(Met(t), MetIn(rest))
  }

  function Concat<T>(a: List<T>, b: List<T>): List<T> {
    match a
    case Nil => b
    case Cons(x, rest) => Cons(x, Concat(rest, b))
  }

  /** A node, its name if that is not constant, and its valuestring if that is not borrowed. */
  predicate IsPartOf(o: object, t: Shape) {
    o == t.node || (!t.constName && o in Buffers(t.name)) || (!t.lent && o in Buffers(t.str))
  }

  predicate IsPartOfSome(o: object, ts: List<Shape>) {
    ts.Cons? && (IsPartOf(o, ts.head) || IsPartOfSome(o, ts.tail))
  }

  lemma {:induction false} PartOfBoth(o: object, a: List<Shape>, b: List<Shape>)
    ensures IsPartOfSome(o, Concat(a, b)) <==> IsPartOfSome(o, a) || IsPartOfSome(o, b)
    decreases a
  {
    if a.Cons? {
      PartOfBoth(o, a.tail, b);
    }
  }

  /** A tree owns the parts of the nodes so met, and nothing behind a reference. */
  lemma {:induction false} OwnedIsMet(o: object, t: Shape)
    ensures o in Owned(t) <==> IsPartOfSome(o, Met(t))
    decreases t, 1
  {
    OwnedListIsMet(o, t.kids);
  }

  lemma {:induction false} OwnedListIsMet(o: object, ts: List<Shape>)
    ensures o in OwnedList(ts) <==> IsPartOfSome(o, MetIn(ts))
    decreases ts, 0
  {
    if ts.Cons? {
      OwnedIsMet(o, ts.head);
      OwnedListIsMet(o, ts.tail);
      PartOfBoth(o, Met(ts.head), MetIn(ts.tail));
    }
  }

  /** Nothing is owned twice. */
  predicate Apart(t: Shape)
    decreases t, 1
  {
    && (t.constName || t.lent || Buffers(t.name) !! Buffers(t.str) !! OwnedList(t.kids))
    && (t.constName || t.node !in Buffers(t.name))
    && (t.lent || (t.node !in Buffers(t.str) + OwnedList(t.kids) && Buffers(t.str) !! OwnedList(t.kids)
                   && ApartList(t.kids)))
  }

  predicate ApartList(ts: List<Shape>)
    decreases ts, 0
  {
    match ts
    case Nil => true
    case Cons(t, rest) => Apart(t) && ApartList(rest) && Owned(t) !! OwnedList(rest)
  }

  predicate PointsTo(p: array?<byte>, c: Option<Cell>) {
    p == if c.None? then null else c.value.buf
  }

  ghost predicate CellIs(p: array?<byte>, c: Option<Cell>)
    reads Buffers(c)
  {
    match c
    case None => p == null
    case Some(Cell(buf, text)) =>
      p == buf && |text| < buf.Length && buf[..|text|] == text && buf[|text|] == NUL && NUL !in text
  }

  /** A C string ends at its first NUL. */
  lemma CellEnds(p: array<byte>, c: Option<Cell>, i: nat)
    requires CellIs(p, c) && i <= |TextOf(c)|
    ensures i < p.Length && (i < |TextOf(c)| ==> p[i] == TextOf(c)[i])
    ensures p[i] == NUL <==> i == |TextOf(c)|
  {
  }

  function HeadNode(ts: List<Shape>): Node? {
    if ts.Nil? then null else ts.head.node
  }

  function LastNode(ts: List<Shape>): (n: Node?)
    ensures n == null <==> ts.Nil?
  {
    if ts.Nil? then null else if ts.tail.Nil? then ts.head.node else LastNode(ts.tail)
  }

  /** The node holds what t says of it, apart from child. */
  ghost predicate Fields(t: Shape)
    reads {t.node} + (if t.constName then {} else Buffers(t.name)) + (if t.lent then {} else Buffers(t.str))
  {
    var n := t.node;
    && n.kind == t.kind && n.valuedouble == t.num && n.valueint == t.whole
    && (t.kind == NumberKind ==> t.whole == ToInt(t.num))
    && n.isReference == t.lent && n.constName == t.constName
    && (if t.constName then PointsTo(n.name, t.name) else CellIs(n.name, t.name))
    && (!t.lent ==> CellIs(n.valuestring, t.str))
  }

  /** The heap holds the tree, as far as the tree owns it. */
  ghost predicate Holds(t: Shape)
    reads Owned(t)
    decreases t, 1
  {
    && Fields(t)
    && (!t.lent ==> t.node.child == HeadNode(t.kids)
                    && Chained(t.kids, if t.open then null else LastNode(t.kids)))
  }

  /** The trees ts are siblings: next runs along them to null, prev runs back, and the
      first one's prev is before. A complete list has before == LastNode(ts). */
  ghost predicate Chained(ts: List<Shape>, before: Node?)
    reads OwnedList(ts)
    decreases ts, 0
  {
    match ts
    case Nil => true
    case Cons(t, rest) =>
      Holds(t) && t.node.prev == before && t.node.next == HeadNode(rest) && Chained(rest, t.node)
  }

  /** The JSON value that a tree represents. */
  function ValueOf(t: Shape): Json
    decreases t, 1
  {
    match t.kind
    case FalseKind => False
    case TrueKind => True
    case NumberKind => Number(t.num)
    case StringKind => String(TextOf(t.str))
    case ArrayKind => Array(ValuesOf(t.kids))
    case ObjectKind => Object(MembersOf(t.kids))
    case _ => Null
  }

  function TextOf(c: Option<Cell>): bytes {
    match c
    case None => []
    case Some(cell) => cell.text
  }

  function ValuesOf(ts: List<Shape>): List<Json>
    decreases ts, 0
  {
    match ts
    case Nil => Nil
    case Cons(t, rest) => Cons(ValueOf(t), ValuesOf(rest))
  }

  function MembersOf(ts: List<Shape>): List<Member>
    decreases ts, 0
  {
    match ts
    case Nil => Nil
    case Cons(t, rest) => Cons(Member(TextOf(t.name), ValueOf(t)), MembersOf(rest))
  }

  predicate AllNamed(ts: List<Shape>) {
    ts.Cons? ==> ts.head.name.Some? && AllNamed(ts.tail)
  }

  /** A tree as the parser makes it: it borrows nothing, and nothing is missing from it. */
  predicate Unshared(t: Shape)
    decreases t, 1
  {
    && !t.lent && !t.constName && !t.open && t.kind != Invalid
    && (t.kind == TrueKind ==> t.whole == 1) && (t.kind == StringKind ==> t.str.Some?)
    && (t.kind == ObjectKind ==> AllNamed(t.kids))
    && UnsharedList(t.kids)
  }

  predicate UnsharedList(ts: List<Shape>)
    decreases ts, 0
  {
    ts.Cons? ==> Unshared(ts.head) && UnsharedList(ts.tail)
  }

  lemma {:induction false} NotOwned(o: object, ts: List<Shape>)
    requires !(o is Node) && !(o is array<byte>)
    ensures o !in OwnedList(ts)
    decreases ts
  {
    if ts.Cons? {
      NotOwned(o, ts.head.kids);
      NotOwned(o, ts.tail);
    }
  }

  lemma NotOwnedBy(o: object, t: Shape)
    requires !(o is Node) && !(o is array<byte>)
    ensures o !in Owned(t)
  {
    NotOwned(o, t.kids);
  }

  // ---- cJSON_Delete -----------------------------------------------------------------------

  /** Frees exactly what the trees from item on own, each object once. */
  method Delete(heap: Allocator, item: Node?, ghost ts: List<Shape>, ghost before: Node?)
    requires Chained(ts, before) && HeadNode(ts) == item && ApartList(ts)
    requires OwnedList(ts) <= heap.live
    modifies heap`live, OwnedList(ts)
    ensures heap.live == old(heap.live) - OwnedList(ts)
    decreases ts
  {
    var item := item;
    ghost var rest, last := ts, before;
    NotOwned(heap, ts);
    while item != null
      invariant Chained(rest, last) && HeadNode(rest) == item && ApartList(rest)
      invariant OwnedList(rest) <= OwnedList(ts)
      invariant heap.live == old(heap.live) - (OwnedList(ts) - OwnedList(rest))
      decreases rest
    {
      hide Holds, Apart, Owned;
      var next := item.next;
      DeleteItem(heap, item, rest.head);
      item := next;
      rest, last := rest.tail, rest.head.node;
    }
  }

  /** The body of cJSON_Delete's loop. */
  method DeleteItem(heap: Allocator, item: Node, ghost t: Shape)
    requires t.node == item && Holds(t) && Apart(t) && Owned(t) <= heap.live
    modifies heap`live, Owned(t)
    ensures heap.live == old(heap.live) - Owned(t)
    decreases t
  {
    NotOwned(heap, t.kids);
    if !item.isReference && item.child != null {
      Delete(heap, item.child, t.kids, if t.open then null else LastNode(t.kids));
    }
    if !item.isReference && item.valuestring != null {
      heap.Free(item.valuestring);
      item.valuestring := null;
    }
    if !item.constName && item.name != null {
      heap.Free(item.name);
      item.name := null;
    }
    heap.Free(item);
  }
}
