/** The editing operations on whole trees: given trees, they leave trees, with the child
    list edited as their names promise and with nothing lost or owned twice. */
module Trees {
  import opened Lists
  import opened Json
  import opened Heap
  import opened Construction
  import opened Siblings

  /** A complete tree that borrows nothing at its root. */
  ghost predicate IsTree(t: Shape)
    reads Owned(t)
  {
    Holds(t) && Apart(t) && !t.lent && !t.open
  }

  // ---- edited lists --------------------------------------------------------------------------

  lemma LengthOfNodes(ts: List<Shape>)
    ensures |NodesOf(ts)| == Length(ts)
  {
  }

  lemma {:induction false} InsertedNodes(ts: List<Shape>, k: nat, u: Shape)
    ensures var s := NodesOf(ts);
            var j := if k < |s| then k else |s|;
            NodesOf(Inserted(ts, k, u)) == s[..j] + [u.node] + s[j..]
  {
    if k > 0 && ts.Cons? {
      InsertedNodes(ts.tail, k - 1, u);
    }
  }

  lemma {:induction false} RemovedNodes(ts: List<Shape>, k: nat)
    requires k < Length(ts)
    ensures var s := NodesOf(ts);
            k < |s| && Nth(ts, k).node == s[k] && NodesOf(Removed(ts, k)) == s[..k] + s[k + 1..]
  {
    if k > 0 {
      RemovedNodes(ts.tail, k - 1);
    }
  }

  lemma {:induction false} InsertedOwns(ts: List<Shape>, k: nat, u: Shape)
    ensures OwnedList(Inserted(ts, k, u)) == OwnedList(ts) + Owned(u)
    ensures ApartList(ts) && Apart(u) && OwnedList(ts) !! Owned(u) ==> ApartList(Inserted(ts, k, u))
  {
    hide Owned, Apart;
    if k > 0 && ts.Cons? {
      InsertedOwns(ts.tail, k - 1, u);
    }
  }

  lemma {:induction false} RemovedOwns(ts: List<Shape>, k: nat)
    requires k < Length(ts) && ApartList(ts)
    ensures ApartList(Removed(ts, k)) && Apart(Nth(ts, k))
    ensures OwnedList(Removed(ts, k)) == OwnedList(ts) - Owned(Nth(ts, k)) && Owned(Nth(ts, k)) <= OwnedList(ts)
  {
    hide Owned, Apart;
    if k > 0 {
      RemovedOwns(ts.tail, k - 1);
    }
  }

  lemma {:induction false} InsertedHolds(ts: List<Shape>, k: nat, u: Shape)
    requires HoldsEach(ts) && Holds(u)
    ensures HoldsEach(Inserted(ts, k, u))
    decreases ts
  {
    hide Holds;
    if k > 0 && ts.Cons? {
      InsertedHolds(ts.tail, k - 1, u);
    }
  }

  lemma {:induction false} RemovedHolds(ts: List<Shape>, k: nat)
    requires HoldsEach(ts) && k < Length(ts)
    ensures HoldsEach(Removed(ts, k)) && Holds(Nth(ts, k))
    decreases ts
  {
    hide Holds;
    if k > 0 {
      RemovedHolds(ts.tail, k - 1);
    }
  }

  /** The value of an edited array or object has the same edit. */
  lemma {:induction false} InsertedMeans(ts: List<Shape>, k: nat, u: Shape)
    ensures ValuesOf(Inserted(ts, k, u)) == Inserted(ValuesOf(ts), k, ValueOf(u))
    ensures MembersOf(Inserted(ts, k, u)) == Inserted(MembersOf(ts), k, Member(TextOf(u.name), ValueOf(u)))
  {
    hide ValueOf;
    if k > 0 && ts.Cons? {
      InsertedMeans(ts.tail, k - 1, u);
    }
  }

  lemma {:induction false} RemovedMeans(ts: List<Shape>, k: nat)
    requires k < Length(ts)
    ensures k < Length(ValuesOf(ts)) && ValuesOf(Removed(ts, k)) == Removed(ValuesOf(ts), k)
    ensures k < Length(MembersOf(ts)) && MembersOf(Removed(ts, k)) == Removed(MembersOf(ts), k)
  {
    hide ValueOf;
    if k > 0 {
      RemovedMeans(ts.tail, k - 1);
    }
  }

  /** Detaching what was inserted gives the list back. */
  lemma {:induction false} InsertedThenRemoved<T>(ts: List<T>, k: nat, x: T)
    requires k <= Length(ts)
    ensures var more := Inserted(ts, k, x);
            k < Length(more) && Nth(more, k) == x && Removed(more, k) == ts
  {
    if k > 0 {
      InsertedThenRemoved(ts.tail, k - 1, x);
    }
  }

  // ---- what relinking leaves alone --------------------------------------------------------------

  twostate predicate OnlyLinksMoved(n: Node)
    reads n
  {
    && n.child == old(n.child) && n.kind == old(n.kind) && n.name == old(n.name)
    && n.isReference == old(n.isReference) && n.constName == old(n.constName)
    && n.valuestring == old(n.valuestring) && n.valueint == old(n.valueint) && n.valuedouble == old(n.valuedouble)
  }

  /** Of each tree, nodes has the root at most. */
  predicate RootsOnly(ts: List<Shape>, nodes: set<object>) {
    ts.Cons? ==> (forall o :: o in nodes && o in Owned(ts.head) ==> o == ts.head.node) && RootsOnly(ts.tail, nodes)
  }

  lemma {:induction false} RootsAreRoots(ts: List<Shape>, nodes: set<object>)
    requires ApartList(ts)
    requires forall o :: o in nodes && o in OwnedList(ts) ==> o in NodesOf(ts)
    ensures RootsOnly(ts, nodes)
    decreases ts
  {
    hide Apart, Owned;
    if ts.Cons? {
      NodesAreOwned(ts.tail);
      EndsAreOwned(ts);
      RootsAreRoots(ts.tail, nodes);
    }
  }

  /** Trees, the nodes whose links move, and objects that are allocated. */
  datatype Scene = Scene(ts: List<Shape>, moved: set<Node>, live: set<object>)

  twostate predicate Relinks(c: Scene)
    requires c.moved <= c.live && OwnedList(c.ts) <= c.live
    reads c.live
  {
    && (forall n :: n in c.moved ==> OnlyLinksMoved(n))
    && (forall o :: o in OwnedList(c.ts) && o !in c.moved ==> unchanged(o))
  }

  twostate lemma FirstStillHolds(c: Scene)
    requires c.moved <= c.live && OwnedList(c.ts) <= c.live && Relinks(c)
    requires c.ts.Cons? && old(Holds(c.ts.head)) && ApartList(c.ts) && RootsOnly(c.ts, c.moved)
    ensures Holds(c.ts.head)
  {
    var t := c.ts.head;
    EndsAreOwned(c.ts);
    assert OnlyLinksMoved(t.node);
  }

  twostate lemma {:induction false} StillHoldsEach(c: Scene)
    requires c.moved <= c.live && OwnedList(c.ts) <= c.live && Relinks(c)
    requires old(HoldsEach(c.ts)) && ApartList(c.ts) && RootsOnly(c.ts, c.moved)
    ensures HoldsEach(c.ts)
    decreases c.ts
  {
    hide Apart, Owned, Holds;
    if c.ts.Cons? {
      FirstStillHolds(c);
      StillHoldsEach(c.(ts := c.ts.tail));
    }
  }

  function Nodes(s: seq<Node>): set<Node> {
    set n | n in s
  }

  /** A tree with other children is owned by its root, its buffers and those children. */
  lemma NewKids(t: Shape, kids: List<Shape>)
    requires Apart(t) && !t.lent && ApartList(kids) && OwnedList(kids) !! (Owned(t) - OwnedList(t.kids))
    ensures Apart(t.(kids := kids)) && Owned(t.(kids := kids)) == Owned(t) - OwnedList(t.kids) + OwnedList(kids)
  {
  }

  lemma InsertedIsApart(t: Shape, k: nat, u: Shape)
    requires Apart(t) && !t.lent && Apart(u) && Owned(t) !! Owned(u)
    ensures var edited := t.(kids := Inserted(t.kids, k, u));
            Apart(edited) && Owned(edited) == Owned(t) + Owned(u)
  {
    InsertedOwns(t.kids, k, u);
    NewKids(t, Inserted(t.kids, k, u));
  }

  /** What the edits below need to know of a tree. */
  lemma TreeParts(t: Shape)
    requires IsTree(t)
    ensures IsList(t.node, NodesOf(t.kids)) && HoldsEach(t.kids) && ApartList(t.kids) && Fields(t) && Apart(t)
    ensures !t.lent && !t.open && OwnedList(t.kids) <= Owned(t) && Nodes(NodesOf(t.kids)) <= OwnedList(t.kids)
    ensures t.node in Owned(t) && t.node !in OwnedList(t.kids)
    ensures Buffers(t.str) + (if t.constName then {} else Buffers(t.name)) !! OwnedList(t.kids)
    ensures RootsOnly(t.kids, Nodes(NodesOf(t.kids)))
  {
    HeldChildrenAreAList(t);
    NodesAreOwned(t.kids);
    RootsAreRoots(t.kids, Nodes(NodesOf(t.kids)));
  }

  /** A tree in front of others. */
  lemma Joined(u: Shape, ts: List<Shape>)
    requires Apart(u) && ApartList(ts) && Owned(u) !! OwnedList(ts)
    ensures var us := Cons(u, ts);
      && OwnedList(us) == Owned(u) + OwnedList(ts) && ApartList(us) && u.node in Owned(u)
      && RootsOnly(us, {u.node} + Nodes(NodesOf(ts)))
  {
    hide Apart, Owned;
    EndsAreOwned(Cons(u, ts));
    NodesAreOwned(ts);
    RootsAreRoots(Cons(u, ts), {u.node} + Nodes(NodesOf(ts)));
  }

  lemma JoinedHold(u: Shape, ts: List<Shape>)
    ensures HoldsEach(Cons(u, ts)) <==> Holds(u) && HoldsEach(ts)
  {
    hide Holds;
  }

  lemma RootIsOwned(u: Shape)
    ensures u.node in Owned(u)
  {
  }

  /** Relinking has put the root of u in front of position k. */
  lemma InsertedIsATree(t: Shape, k: nat, u: Shape)
    requires Fields(t) && Apart(t) && !t.lent && !t.open && HoldsEach(t.kids)
    requires Holds(u) && Apart(u) && Owned(t) !! Owned(u)
    requires var s := NodesOf(t.kids);
             var j := if k < |s| then k else |s|;
             IsList(t.node, s[..j] + [u.node] + s[j..])
    ensures var edited := t.(kids := Inserted(t.kids, k, u));
            IsTree(edited) && Owned(edited) == Owned(t) + Owned(u)
  {
    hide Owned, Apart, Holds, IsList, HoldsEach;
    var edited := t.(kids := Inserted(t.kids, k, u));
    InsertedNodes(t.kids, k, u);
    InsertedHolds(t.kids, k, u);
    InsertedIsApart(t, k, u);
    SameFields(t, edited.kids);
    ListOfTreesIsATree(edited);
  }

  lemma SameFields(t: Shape, kids: List<Shape>)
    requires Fields(t)
    ensures Fields(t.(kids := kids))
  {
  }

  // ---- the operations ----------------------------------------------------------------------------

  /** cJSON_InsertItemInArray on trees: u becomes the child at position which, or the last one. */
  method InsertChild(parent: Node?, which: int, newitem: Node?, ghost t: Shape, ghost u: Shape,
                     ghost live: set<object>)
    returns (ok: bool, ghost edited: Shape)
    requires parent != null ==> t.node == parent && IsTree(t) && Owned(t) <= live
    requires newitem != null ==> u.node == newitem && Holds(u) && Apart(u) && Detached(newitem) && Owned(u) <= live
    requires parent != null && newitem != null ==> Owned(t) !! Owned(u)
    modifies Only(parent)`child, Only(newitem)`next, Only(newitem)`prev, NodesOf(t.kids)`next, NodesOf(t.kids)`prev
    ensures ok <==> which >= 0 && newitem != null && parent != null
    ensures edited == if ok then t.(kids := Inserted(t.kids, which, u)) else t
    ensures parent != null ==> IsTree(edited)
    ensures ok ==> Owned(edited) == Owned(t) + Owned(u)
  {
    hide IsTree, Holds, HoldsEach, Apart, ApartList, Owned, OwnedList, IsList, RootsOnly, NodesOf, Inserted;
    edited := t;
    ok := false;
    if which < 0 || newitem == null || parent == null {
      return;
    }
    ghost var s := NodesOf(t.kids);
    ghost var us, moved := Cons(u, t.kids), {newitem} + Nodes(s);
    TreeParts(t);
    Joined(u, t.kids);
    JoinedHold(u, t.kids);
    ok := InsertItemInArray(parent, which, newitem, s);
    edited := t.(kids := Inserted(t.kids, which, u));
    StillHoldsEach(Scene(us, moved, live));
    JoinedHold(u, t.kids);
    InsertedIsATree(t, which, u);
  }

  /** cJSON_AddItemToArray on trees: u becomes the last child. */
  method AppendChild(parent: Node?, item: Node?, ghost t: Shape, ghost u: Shape, ghost live: set<object>)
    returns (ok: bool, ghost edited: Shape)
    requires parent != null ==> t.node == parent && IsTree(t) && Owned(t) <= live
    requires item != null && item != parent ==>
               u.node == item && Holds(u) && Apart(u) && Detached(item) && Owned(u) <= live
    requires parent != null && item != null && item != parent ==> Owned(t) !! Owned(u)
    modifies Only(parent)`child, Only(item)`next, Only(item)`prev, NodesOf(t.kids)`next, NodesOf(t.kids)`prev
    ensures ok <==> parent != null && item != null && parent != item
    ensures edited == if ok then t.(kids := Inserted(t.kids, Length(t.kids), u)) else t
    ensures parent != null ==> IsTree(edited)
    ensures ok ==> Owned(edited) == Owned(t) + Owned(u)
  {
    hide IsTree, Holds, HoldsEach, Apart, ApartList, Owned, OwnedList, IsList, RootsOnly, NodesOf, Inserted, Length;
    edited := t;
    ok := false;
    if item == null || parent == null || parent == item {
      return;
    }
    ghost var s, n := NodesOf(t.kids), Length(t.kids);
    ghost var us, moved := Cons(u, t.kids), {item} + Nodes(s);
    LengthOfNodes(t.kids);
    TreeParts(t);
    Joined(u, t.kids);
    JoinedHold(u, t.kids);
    ok := AddItemToArray(parent, item, s);
    edited := t.(kids := Inserted(t.kids, n, u));
    StillHoldsEach(Scene(us, moved, live));
    JoinedHold(u, t.kids);
    assert s[..n] + [u.node] + s[n..] == s + [item];
    InsertedIsATree(t, n, u);
  }

  /** Relinking has taken the root of child k out. */
  lemma RemovedIsATree(t: Shape, k: nat)
    requires Fields(t) && Apart(t) && !t.lent && !t.open && HoldsEach(t.kids) && k < Length(t.kids)
    requires var s := NodesOf(t.kids); k < |s| && IsList(t.node, s[..k] + s[k + 1..])
    ensures var d, rest := Nth(t.kids, k), t.(kids := Removed(t.kids, k));
      && IsTree(rest) && Holds(d) && Apart(d) && Owned(rest) !! Owned(d) && Owned(rest) + Owned(d) == Owned(t)
  {
    hide Owned, Apart, Holds, IsList, HoldsEach;
    var rest := t.(kids := Removed(t.kids, k));
    RemovedNodes(t.kids, k);
    RemovedHolds(t.kids, k);
    RemovedIsApart(t, k);
    SameFields(t, rest.kids);
    ListOfTreesIsATree(rest);
  }

  lemma RelinkedIsATree(t: Shape)
    requires Fields(t) && Apart(t) && !t.lent && !t.open && HoldsEach(t.kids) && IsList(t.node, NodesOf(t.kids))
    ensures IsTree(t)
  {
    ListOfTreesIsATree(t);
  }

  lemma RemovedIsApart(t: Shape, k: nat)
    requires Apart(t) && !t.lent && k < Length(t.kids)
    ensures var d, rest := Nth(t.kids, k), t.(kids := Removed(t.kids, k));
      && Apart(rest) && Apart(d) && Owned(rest) !! Owned(d) && Owned(rest) + Owned(d) == Owned(t)
  {
    RemovedOwns(t.kids, k);
    NewKids(t, Removed(t.kids, k));
  }

  /** cJSON_DetachItemFromArray on trees: child which and what remains are trees apart. */
  method DetachChild(parent: Node?, which: int, ghost t: Shape, ghost live: set<object>)
    returns (detached: Node?, ghost edited: Shape)
    requires parent != null ==> t.node == parent && IsTree(t) && Owned(t) <= live
    modifies Only(parent)`child, NodesOf(t.kids)`next, NodesOf(t.kids)`prev
    ensures detached != null <==> parent != null && 0 <= which < Length(t.kids)
    ensures edited == if detached != null then t.(kids := Removed(t.kids, which)) else t
    ensures parent != null ==> IsTree(edited)
    ensures detached != null ==>
              var d := Nth(t.kids, which);
              && d.node == detached && Holds(d) && Apart(d) && Detached(detached)
              && Owned(edited) !! Owned(d) && Owned(edited) + Owned(d) == Owned(t)
  {
    hide IsTree, Holds, HoldsEach, Apart, ApartList, Owned, OwnedList, IsList, RootsOnly, NodesOf, Removed, Nth, Length;
    edited := t;
    ghost var s := NodesOf(t.kids);
    LengthOfNodes(t.kids);
    if parent != null {
      TreeParts(t);
    }
    detached := DetachItemFromArray(parent, which, s);
    if parent != null {
      StillHoldsEach(Scene(t.kids, Nodes(s), live));
    }
    if detached == null && parent != null {
      RelinkedIsATree(t);
    }
    if detached != null {
      edited := t.(kids := Removed(t.kids, which));
      RemovedNodes(t.kids, which);
      RemovedIsATree(t, which);
    }
  }

  /** cJSON_DeleteItemFromArray: exactly what child which owned is freed. */
  method DeleteChild(heap: Allocator, parent: Node?, which: int, ghost t: Shape)
    returns (ghost edited: Shape)
    requires parent != null ==> t.node == parent && IsTree(t) && Owned(t) <= heap.live
    modifies heap`live, Only(parent)`child, NodesOf(t.kids)`next, NodesOf(t.kids)`prev
    modifies if parent != null && 0 <= which < Length(t.kids) then Owned(Nth(t.kids, which)) else {}
    ensures parent != null ==> IsTree(edited)
    ensures parent != null && 0 <= which < Length(t.kids) ==>
              && edited == t.(kids := Removed(t.kids, which))
              && heap.live == old(heap.live) - Owned(Nth(t.kids, which)) && Owned(edited) <= heap.live
    ensures !(parent != null && 0 <= which < Length(t.kids)) ==> edited == t && heap.live == old(heap.live)
  {
    hide Holds, Apart, Owned, Removed, Nth, Length, NodesOf;
    NotOwnedBy(heap, t);
    var detached;
    detached, edited := DetachChild(parent, which, t, heap.live);
    if detached != null {
      DeleteAlone(heap, detached, Nth(t.kids, which));
    }
  }

  /** The root of u has taken the place of child k. */
  lemma ReplacedIsATree(t: Shape, k: nat, u: Shape)
    requires Fields(t) && Apart(t) && !t.lent && !t.open && k < Length(t.kids) && HoldsEach(Removed(t.kids, k))
    requires Holds(u) && Apart(u) && Owned(t) !! Owned(u)
    requires var s := NodesOf(t.kids); k < |s| && IsList(t.node, s[k := u.node])
    ensures var d, edited := Nth(t.kids, k), t.(kids := Inserted(Removed(t.kids, k), k, u));
            IsTree(edited) && Owned(edited) == Owned(t) - Owned(d) + Owned(u)
  {
    hide Owned, Apart, Holds, IsList, HoldsEach, IsTree, Removed, Inserted, Nth;
    var s, rest := NodesOf(t.kids), t.(kids := Removed(t.kids, k));
    RemovedNodes(t.kids, k);
    RemovedIsApart(t, k);
    SameFields(t, rest.kids);
    var s' := NodesOf(rest.kids);
    assert s'[..k] + [u.node] + s'[k..] == s[k := u.node];
    InsertedIsATree(rest, k, u);
  }

  /** Child k, and the other children. */
  lemma ChildAndRest(t: Shape, k: nat)
    requires IsTree(t) && k < Length(t.kids)
    ensures var s, d, rest := NodesOf(t.kids), Nth(t.kids, k), Removed(t.kids, k);
      && k < |s| && d.node == s[k] && Holds(d) && Apart(d) && Owned(d) <= OwnedList(t.kids)
      && t.node !in Owned(d)
      && (forall i :: 0 <= i < |s| && i != k ==> s[i] !in Owned(d))
      && HoldsEach(rest) && ApartList(rest) && OwnedList(rest) == OwnedList(t.kids) - Owned(d)
      && RootsOnly(rest, Nodes(NodesOf(rest))) && Nodes(NodesOf(rest)) <= OwnedList(rest)
      && d.node in Owned(d) && (forall n :: n in s ==> n == d.node || n in Nodes(NodesOf(rest)))
  {
    hide Owned, Apart, Holds, IsList, HoldsEach, IsTree, Removed, Nth, NodesOf;
    var s, rest := NodesOf(t.kids), Removed(t.kids, k);
    TreeParts(t);
    RemovedNodes(t.kids, k);
    RemovedHolds(t.kids, k);
    RemovedOwns(t.kids, k);
    NodesAreOwned(rest);
    RootsAreRoots(rest, Nodes(NodesOf(rest)));
    RootIsOwned(Nth(t.kids, k));
    assert s == s[..k] + [s[k]] + s[k + 1..];
    forall i | 0 <= i < |s| && i != k
      ensures s[i] !in Owned(Nth(t.kids, k))
    {
      assert s[i] == NodesOf(rest)[if i < k then i else i - 1];
    }
  }

  /** cJSON_ReplaceItemViaPointer on trees: u takes the place of child k, and exactly what
      that child owned is freed. */
  method ReplaceChild(heap: Allocator, parent: Node?, item: Node?, replacement: Node?, ghost t: Shape, ghost k: nat,
                      ghost u: Shape, ghost live: set<object>)
    returns (ok: bool, ghost edited: Shape)
    requires live == heap.live
    requires parent != null ==> t.node == parent && IsTree(t) && Owned(t) <= live
    requires item != null && parent != null ==> k < Length(t.kids) && Nth(t.kids, k).node == item
    requires replacement != null && replacement != item ==>
               u.node == replacement && Holds(u) && Apart(u) && Detached(replacement) && Owned(u) <= live
    requires parent != null && replacement != null && replacement != item ==> Owned(t) !! Owned(u)
    modifies heap`live, Only(parent)`child, Only(replacement)`next, Only(replacement)`prev
    modifies NodesOf(t.kids)`next, NodesOf(t.kids)`prev
    modifies if parent == null || item == null || replacement == null || replacement == item then {}
             else Owned(Nth(t.kids, k))
    ensures ok <==> parent != null && item != null && replacement != null
    ensures parent != null ==> IsTree(edited)
    ensures ok && replacement != item ==>
              var d := Nth(t.kids, k);
              && edited == t.(kids := Inserted(Removed(t.kids, k), k, u))
              && Owned(edited) == Owned(t) - Owned(d) + Owned(u) && heap.live == live - Owned(d)
    ensures !ok || replacement == item ==> edited == t && heap.live == live
  {
    hide IsTree, Holds, HoldsEach, Apart, ApartList, Owned, OwnedList, RootsOnly, NodesOf, Inserted, Removed,
         Nth, Length, Links;
    edited := t;
    ghost var s, d, rest := [], t, t.kids;
    if parent != null {
      s := NodesOf(t.kids);
      TreeParts(t);
    }
    if parent != null && item != null {
      d, rest := Nth(t.kids, k), Removed(t.kids, k);
      ChildAndRest(t, k);
    }
    NotOwnedBy(heap, t);
    NotOwnedBy(heap, u);
    RootIsOwned(u);
    JoinedHold(u, rest);
    ok := ReplaceItemViaPointer(heap, parent, item, replacement, s, k, d);
    if ok && item != replacement {
      edited := t.(kids := Inserted(rest, k, u));
      Joined(u, rest);
      StillHoldsEach(Scene(Cons(u, rest), {replacement} + Nodes(NodesOf(rest)), live));
      JoinedHold(u, rest);
      ReplacedIsATree(t, k, u);
    }
  }
}
