/** Trees as readers see them: print, duplicate and compare follow child and next, and
    do not care who owns what they find. */
module View {
  import opened Lists
  import opened NumberCodec
  import opened Heap

  /** Every object a reader of the tree can touch. */
  function Reach(t: Shape): set<object>
    decreases t, 1
  {
    {t.node} + Buffers(t.name) + Buffers(t.str) + ReachList(t.kids)
  }

  function ReachList(ts: List<Shape>): set<object>
    decreases ts, 0
  {
    match ts
    case Nil => {}
    case Cons(t, rest) => Reach(t) + ReachList(rest)
  }

  /** The heap shows the tree to a reader. Borrowed children and constant names count. */
  ghost predicate Shows(t: Shape)
    reads Reach(t)
    decreases t, 1
  {
    var n := t.node;
    && n.kind == t.kind && n.valuedouble == t.num && n.valueint == t.whole
    && (t.kind == NumberKind ==> t.whole == ToInt(t.num))
    && n.isReference == t.lent && n.constName == t.constName
    && CellIs(n.name, t.name) && CellIs(n.valuestring, t.str)
    && n.child == HeadNode(t.kids) && ShowsList(t.kids)
  }

  ghost predicate ShowsList(ts: List<Shape>)
    reads ReachList(ts)
    decreases ts, 0
  {
    match ts
    case Nil => true
    case Cons(t, rest) => Shows(t) && t.node.next == HeadNode(rest) && ShowsList(rest)
  }

  /** Every node that a printer looks at has a JSON type. */
  predicate Typed(t: Shape)
    decreases t, 1
  {
    t.kind != Invalid && (t.kind == ArrayKind || t.kind == ObjectKind ==> TypedList(t.kids))
  }

  predicate TypedList(ts: List<Shape>)
    decreases ts, 0
  {
    ts.Cons? ==> Typed(ts.head) && TypedList(ts.tail)
  }

  /** What the parser returns can be read. */
  lemma {:induction false} HeldIsShown(t: Shape)
    requires Holds(t) && Unshared(t)
    ensures Shows(t) && Typed(t) && Reach(t) == Owned(t)
    decreases t, 1
  {
    HeldListIsShown(t.kids, LastNode(t.kids));
  }

  lemma {:induction false} HeldListIsShown(ts: List<Shape>, before: Node?)
    requires Chained(ts, before) && UnsharedList(ts)
    ensures ShowsList(ts) && TypedList(ts) && ReachList(ts) == OwnedList(ts)
    decreases ts, 0
  {
    if ts.Cons? {
      HeldIsShown(ts.head);
      HeldListIsShown(ts.tail, ts.head.node);
    }
  }
}
