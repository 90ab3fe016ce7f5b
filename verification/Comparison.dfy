/** cJSON_Compare on nodes, the function that it computes, and what that function means
    for trees whose objects have distinct keys: equality of the JSON values, with objects
    taken as finite maps. */
module Comparison {
  import opened Bytes
  import opened Options
  import opened Lists
  import opened NumberCodec
  import opened Json
  import opened Heap
  import opened View
  import opened Duplication

  // ---- what cJSON_Compare computes -----------------------------------------------------------

  const DBL_EPSILON: real := 1.0 / 4503599627370496.0

  function Abs(x: real): real {
    if x < 0.0 then -x else x
  }

  /** compare_double. */
  predicate CloseTo(a: real, b: real) {
    Abs(a - b) <= (if Abs(a) > Abs(b) then Abs(a) else Abs(b)) * DBL_EPSILON
  }

  function ToLower(b: byte): byte {
    if 65 <= b <= 90 then b + 32 else b
  }

  /** The same byte, or the two cases of one letter. */
  predicate SameLetter(x: byte, y: byte) {
    || x == y
    || ('A' as int <= x as int <= 'Z' as int && y as int == x as int + 32)
    || ('A' as int <= y as int <= 'Z' as int && x as int == y as int + 32)
  }

  predicate SameIgnoringCase(s: bytes, t: bytes) {
    |s| == |t| && forall k :: 0 <= k < |s| ==> SameLetter(s[k], t[k])
  }

  predicate KeysMatch(name: bytes, key: bytes, caseSensitive: bool) {
    if caseSensitive then name == key else SameIgnoringCase(name, key)
  }

  function Size(t: Shape): nat
    decreases t, 1
  {
    1 + SizeOf(t.kids)
  }

  function SizeOf(ts: List<Shape>): nat
    decreases ts, 0
  {
    match ts
    case Nil => 0
    case Cons(t, rest) => Size(t) + SizeOf(rest)
  }

  /** get_object_item: the first member whose key matches. The case-sensitive search also
      stops at a member without a key. */
  function Find(ts: List<Shape>, name: Option<Cell>, caseSensitive: bool): (r: Option<Shape>)
    ensures r.Some? ==> Size(r.value) <= SizeOf(ts) && r.value < ts
    decreases ts
  {
    if name.None? || ts.Nil? then None
    else
      var t := ts.head;
      if caseSensitive && t.name.None? then None
      else if t.name.Some? && KeysMatch(name.value.text, t.name.value.text, caseSensitive) then Some(t)
      else Find(ts.tail, name, caseSensitive)
  }

  function Equal(a: Shape, b: Shape, caseSensitive: bool): bool
    decreases Size(a) + Size(b), 1
  {
    && a.kind == b.kind && a.kind != Invalid
    && (a.node == b.node
        || match a.kind
           case NumberKind => CloseTo(a.num, b.num)
           case StringKind => a.str.Some? && b.str.Some? && TextOf(a.str) == TextOf(b.str)
           case ArrayKind => EqualItems(a.kids, b.kids, caseSensitive)
           case ObjectKind => Covers(a.kids, b.kids, caseSensitive) && Covers(b.kids, a.kids, caseSensitive)
           case _ => true)
  }

  function EqualItems(xs: List<Shape>, ys: List<Shape>, caseSensitive: bool): bool
    decreases SizeOf(xs) + SizeOf(ys), 2
  {
    if xs.Nil? || ys.Nil? then xs.Nil? && ys.Nil?
    else Equal(xs.head, ys.head, caseSensitive) && EqualItems(xs.tail, ys.tail, caseSensitive)
  }

  /** Each of xs is found in ys, with an equal value. */
  function Covers(xs: List<Shape>, ys: List<Shape>, caseSensitive: bool): bool
    decreases SizeOf(xs) + SizeOf(ys), 2
  {
    match xs
    case Nil => true
    case Cons(x, rest) =>
      match Find(ys, x.name, caseSensitive)
      case None => false
      case Some(y) => Equal(x, y, caseSensitive) && Covers(rest, ys, caseSensitive)
  }

  // ---- what it means ---------------------------------------------------------------------------

  /** A JSON value with objects as maps. */
  datatype Value =
    | VNull
    | VFalse
    | VTrue
    | VNumber(d: real)
    | VString(s: bytes)
    | VArray(items: List<Value>)
    | VObject(members: map<bytes, Value>)

  /** One key for each class of keys that match. */
  function Canonical(key: bytes, caseSensitive: bool): bytes {
    if caseSensitive then key else Lower(key)
  }

  function Lower(s: bytes): bytes {
    if s == [] then [] else [ToLower(s[0])] + Lower(s[1..])
  }

  lemma {:induction false} LowerAt(s: bytes)
    ensures |Lower(s)| == |s| && forall k :: 0 <= k < |s| ==> Lower(s)[k] == ToLower(s[k])
  {
    if s != [] {
      LowerAt(s[1..]);
    }
  }

  lemma LowerLetters(x: byte, y: byte)
    ensures ToLower(x) == ToLower(y) <==> SameLetter(x, y)
  {
  }

  lemma MatchIsCanonical(name: bytes, key: bytes, caseSensitive: bool)
    ensures KeysMatch(name, key, caseSensitive) <==> Canonical(name, caseSensitive) == Canonical(key, caseSensitive)
  {
    hide ToLower, SameLetter;
    LowerAt(name);
    LowerAt(key);
    forall k | 0 <= k < |name| && k < |key|
      ensures SameLetter(name[k], key[k]) <==> Lower(name)[k] == Lower(key)[k]
    {
      LowerLetters(name[k], key[k]);
    }
  }

  function Denote(j: Json, cs: bool): Value
    decreases j, 1
  {
    match j
    case Null => VNull
    case False => VFalse
    case True => VTrue
    case Number(d) => VNumber(d)
    case String(s) => VString(s)
    case Array(items) => VArray(DenoteItems(items, cs))
    case Object(members) => VObject(DenoteMembers(members, cs))
  }

  function DenoteItems(items: List<Json>, cs: bool): List<Value>
    decreases items, 0
  {
    match items
    case Nil => Nil
    case Cons(j, rest) => Cons(Denote(j, cs), DenoteItems(rest, cs))
  }

  function DenoteMembers(members: List<Member>, cs: bool): map<bytes, Value>
    decreases members, 0
  {
    match members
    case Nil => map[]
    case Cons(m, rest) => DenoteMembers(rest, cs)[Canonical(m.key, cs) := Denote(m.value, cs)]
  }

  predicate HasKey(ts: List<Shape>, key: bytes, cs: bool) {
    ts.Cons? && (KeysMatch(key, TextOf(ts.head.name), cs) || HasKey(ts.tail, key, cs))
  }

  /** The trees of the law: numbers in the int range, strings with contents, and members
      with pairwise distinct keys, up to case if case is ignored. */
  predicate Comparable(t: Shape, cs: bool)
    decreases t, 1
  {
    && t.kind != Invalid
    && (t.kind == NumberKind ==> IsIntRange(t.num))
    && (t.kind == StringKind ==> t.str.Some?)
    && (t.kind == ArrayKind ==> ComparableItems(t.kids, cs))
    && (t.kind == ObjectKind ==> ComparableMembers(t.kids, cs))
  }

  predicate ComparableItems(ts: List<Shape>, cs: bool)
    decreases ts, 0
  {
    ts.Cons? ==> Comparable(ts.head, cs) && ComparableItems(ts.tail, cs)
  }

  predicate ComparableMembers(ts: List<Shape>, cs: bool)
    decreases ts, 0
  {
    ts.Cons? ==>
      && ts.head.name.Some? && !HasKey(ts.tail, TextOf(ts.head.name), cs)
      && Comparable(ts.head, cs) && ComparableMembers(ts.tail, cs)
  }

  /** On int-range numbers the tolerance of compare_double never equates two of them. */
  lemma CloseIntsAreEqual(a: real, b: real)
    requires IsIntRange(a) && IsIntRange(b)
    ensures CloseTo(a, b) <==> a == b
  {
    var m, n := ToInt(a), ToInt(b);
    if m != n {
      assert Abs(a - b) >= 1.0;
      var big := if Abs(a) > Abs(b) then Abs(a) else Abs(b);
      assert big <= 2147483648.0;
      assert big * DBL_EPSILON <= 2147483648.0 * DBL_EPSILON < 1.0;
    }
  }

  /** The tolerance is relative: it does not depend on sign or exponent. */
  lemma CloseIsRelative(a: real, b: real, p: real)
    requires p != 0.0
    ensures CloseTo(a * p, b * p) <==> CloseTo(a, b)
  {
    hide Abs;
    SizeScales(a, p);
    SizeScales(b, p);
    DifferenceScales(a, b, p);
    OrderScales(Abs(a), Abs(b), Abs(p));
    BoundScales(Abs(a - b), if Abs(a) > Abs(b) then Abs(a) else Abs(b), DBL_EPSILON, Abs(p));
  }

  lemma SizeScales(x: real, p: real)
    requires p != 0.0
    ensures Abs(x * p) == Abs(x) * Abs(p) && Abs(p) > 0.0
  {
    if x < 0.0 <==> p < 0.0 {
      assert x * p >= 0.0;
    } else {
      assert x * p <= 0.0;
    }
  }

  lemma DifferenceScales(a: real, b: real, p: real)
    requires p != 0.0
    ensures Abs(a * p - b * p) == Abs(a - b) * Abs(p)
  {
    SizeScales(a - b, p);
    assert (a - b) * p == a * p - b * p;
  }

  lemma OrderScales(x: real, y: real, p: real)
    requires p > 0.0
    ensures x * p <= y * p <==> x <= y
  {
    if x <= y {
      assert (y - x) * p >= 0.0;
    } else {
      assert (x - y) * p > 0.0;
    }
  }

  lemma BoundScales(d: real, m: real, e: real, p: real)
    requires p > 0.0
    ensures d * p <= (m * p) * e <==> d <= m * e
  {
    assert (m * p) * e == (m * e) * p;
    OrderScales(d, m * e, p);
  }

  /** x and y are doubles from 1 to 2, which lie 2 to the power -52 apart: y is the k-th one
      behind x. */
  predicate LiesBehind(x: real, y: real, k: int) {
    1.0 <= x < 2.0 && 1.0 <= y < 2.0 && y == x + k as real / 4503599627370496.0
  }

  lemma NeighboursAreClose(x: real, y: real, k: int)
    requires LiesBehind(x, y, k)
    ensures CloseTo(x, y) <==> -1 <= k <= 1
  {
    var big := if x > y then x else y;
    assert Abs(x - y) == Abs(k as real) / 4503599627370496.0;
    assert CloseTo(x, y) <==> Abs(k as real) <= big;
  }

  /** Among doubles of one sign and exponent, p times those from 1 to 2, cJSON_Compare takes
      each one for its neighbours and for no other. */
  lemma NeighboursAreEqual(a: Shape, b: Shape, x: real, y: real, k: int, p: real, cs: bool)
    requires a.kind == b.kind == NumberKind && a.node != b.node
    requires LiesBehind(x, y, k) && p != 0.0 && a.num == x * p && b.num == y * p
    ensures Equal(a, b, cs) <==> -1 <= k <= 1
  {
    hide CloseTo, LiesBehind;
    NeighboursAreClose(x, y, k);
    CloseIsRelative(x, y, p);
  }

  /** Nodes of different types are different, and so are nodes without a type; a node with a
      type is equal to itself, whatever it holds. */
  lemma TypesComeFirst(a: Shape, b: Shape, cs: bool)
    ensures a.kind != b.kind || a.kind == Invalid ==> !Equal(a, b, cs)
    ensures a.kind == b.kind != Invalid && a.node == b.node ==> Equal(a, b, cs)
    ensures a.kind == b.kind == StringKind && a.node != b.node && (a.str.None? || b.str.None?) ==> !Equal(a, b, cs)
  {
  }

  /** One heap cannot show two values at one node. */
  lemma {:induction false} ShownOnce(a: Shape, b: Shape)
    requires Shows(a) && Shows(b) && a.node == b.node
    ensures ValueOf(a) == ValueOf(b)
    decreases a, 1
  {
    OneText(a.node.valuestring, a.str, b.str);
    ListShownOnce(a.kids, b.kids);
  }

  lemma OneText(p: array?<byte>, c: Option<Cell>, d: Option<Cell>)
    requires CellIs(p, c) && CellIs(p, d)
    ensures TextOf(c) == TextOf(d)
  {
    if c.Some? {
      var shorter := if |TextOf(c)| < |TextOf(d)| then |TextOf(c)| else |TextOf(d)|;
      CellEnds(p, c, shorter);
      CellEnds(p, d, shorter);
    }
  }

  lemma {:induction false} ListShownOnce(xs: List<Shape>, ys: List<Shape>)
    requires ShowsList(xs) && ShowsList(ys) && HeadNode(xs) == HeadNode(ys)
    ensures ValuesOf(xs) == ValuesOf(ys) && MembersOf(xs) == MembersOf(ys)
    decreases xs, 0
  {
    if xs.Cons? {
      OneText(xs.head.node.name, xs.head.name, ys.head.name);
      ShownOnce(xs.head, ys.head);
      ListShownOnce(xs.tail, ys.tail);
    }
  }

  lemma {:induction false} KeysOfMap(ts: List<Shape>, key: bytes, cs: bool)
    ensures Canonical(key, cs) in DenoteMembers(MembersOf(ts), cs) <==> HasKey(ts, key, cs)
    decreases ts
  {
    hide Canonical, KeysMatch;
    if ts.Cons? {
      MatchIsCanonical(key, TextOf(ts.head.name), cs);
      KeysOfMap(ts.tail, key, cs);
    }
  }

  /** Searching finds the first member whose key matches; a case-sensitive search gives up
      at a member without a key. */
  lemma {:induction false} FindIsFirst(ts: List<Shape>, name: Option<Cell>, cs: bool) returns (k: nat)
    requires name.Some?
    ensures k <= Length(ts)
    ensures forall i :: 0 <= i < k ==>
              var t := Nth(ts, i);
              (t.name.Some? ==> !KeysMatch(name.value.text, t.name.value.text, cs)) && (cs ==> t.name.Some?)
    ensures match Find(ts, name, cs)
            case Some(t) =>
              k < Length(ts) && Nth(ts, k) == t && t.name.Some? && KeysMatch(name.value.text, t.name.value.text, cs)
            case None => k == Length(ts) || (cs && Nth(ts, k).name.None?)
    decreases ts
  {
    hide KeysMatch;
    k := 0;
    if ts.Cons? && (if ts.head.name.None? then !cs else !KeysMatch(name.value.text, ts.head.name.value.text, cs)) {
      var n := FindIsFirst(ts.tail, name, cs);
      k := n + 1;
      forall i | 0 <= i < k
        ensures var t := Nth(ts, i);
                (t.name.Some? ==> !KeysMatch(name.value.text, t.name.value.text, cs)) && (cs ==> t.name.Some?)
      {
        assert i > 0 ==> Nth(ts, i) == Nth(ts.tail, i - 1);
      }
    }
  }

  /** Searching members with distinct keys is looking up in the map. */
  lemma {:induction false} FindIsLookup(ts: List<Shape>, name: Option<Cell>, cs: bool)
    requires ComparableMembers(ts, cs) && name.Some? && ShowsList(ts)
    ensures var m, key := DenoteMembers(MembersOf(ts), cs), Canonical(TextOf(name), cs);
      match Find(ts, name, cs)
      case None => key !in m
      case Some(t) => key in m && m[key] == Denote(ValueOf(t), cs) && Comparable(t, cs) && Shows(t)
    decreases ts
  {
    hide Canonical, KeysMatch;
    if ts.Cons? {
      MatchIsCanonical(TextOf(name), TextOf(ts.head.name), cs);
      if !KeysMatch(TextOf(name), TextOf(ts.head.name), cs) {
        FindIsLookup(ts.tail, name, cs);
      }
    }
  }

  ghost predicate Submap(m: map<bytes, Value>, n: map<bytes, Value>) {
    forall k :: k in m ==> k in n && m[k] == n[k]
  }

  lemma SubmapOfUpdate(m: map<bytes, Value>, n: map<bytes, Value>, key: bytes, v: Value)
    requires key !in m
    ensures Submap(m[key := v], n) <==> key in n && n[key] == v && Submap(m, n)
  {
    var m' := m[key := v];
    if Submap(m', n) {
      assert key in m';
      forall k | k in m
        ensures k in n && m[k] == n[k]
      {
        assert k in m';
      }
    }
  }

  lemma MutualSubmaps(m: map<bytes, Value>, n: map<bytes, Value>)
    ensures m == n <==> Submap(m, n) && Submap(n, m)
  {
  }

  /** The law: on comparable trees, cJSON_Compare decides whether the two denote the same
      JSON value, with the case of keys or without. */
  lemma {:induction false} EqualMeansSame(a: Shape, b: Shape, cs: bool)
    requires Comparable(a, cs) && Comparable(b, cs) && Shows(a) && Shows(b)
    ensures Equal(a, b, cs) <==> Denote(ValueOf(a), cs) == Denote(ValueOf(b), cs)
    decreases Size(a) + Size(b), 1
  {
    if a.kind == b.kind {
      if a.node == b.node {
        ShownOnce(a, b);
      }
      match a.kind {
        case NumberKind => CloseIntsAreEqual(a.num, b.num);
        case ArrayKind => ItemsMeanSame(a.kids, b.kids, cs);
        case ObjectKind =>
          CoversMeansSubmap(a.kids, b.kids, cs);
          CoversMeansSubmap(b.kids, a.kids, cs);
          MutualSubmaps(DenoteMembers(MembersOf(a.kids), cs), DenoteMembers(MembersOf(b.kids), cs));
        case _ =>
      }
    }
  }

  lemma {:induction false} ItemsMeanSame(xs: List<Shape>, ys: List<Shape>, cs: bool)
    requires ComparableItems(xs, cs) && ComparableItems(ys, cs) && ShowsList(xs) && ShowsList(ys)
    ensures EqualItems(xs, ys, cs) <==> DenoteItems(ValuesOf(xs), cs) == DenoteItems(ValuesOf(ys), cs)
    decreases SizeOf(xs) + SizeOf(ys), 2
  {
    if xs.Cons? && ys.Cons? {
      EqualMeansSame(xs.head, ys.head, cs);
      ItemsMeanSame(xs.tail, ys.tail, cs);
    }
  }

  lemma {:induction false} CoversMeansSubmap(xs: List<Shape>, ys: List<Shape>, cs: bool)
    requires ComparableMembers(xs, cs) && ComparableMembers(ys, cs) && ShowsList(xs) && ShowsList(ys)
    ensures Covers(xs, ys, cs) <==> Submap(DenoteMembers(MembersOf(xs), cs), DenoteMembers(MembersOf(ys), cs))
    decreases SizeOf(xs) + SizeOf(ys), 2
  {
    hide Submap, Comparable, Shows, Equal, Canonical, KeysMatch;
    if xs.Cons? {
      var x, n := xs.head, DenoteMembers(MembersOf(ys), cs);
      FindIsLookup(ys, x.name, cs);
      KeysOfMap(xs.tail, TextOf(x.name), cs);
      SubmapOfUpdate(DenoteMembers(MembersOf(xs.tail), cs), n, Canonical(TextOf(x.name), cs), Denote(ValueOf(x), cs));
      match Find(ys, x.name, cs) {
        case None =>
        case Some(y) => EqualMeansSame(x, y, cs);
      }
      assert SizeOf(xs.tail) < SizeOf(xs);
      CoversMeansSubmap(xs.tail, ys, cs);
    } else {
      EmptySubmap(DenoteMembers(MembersOf(ys), cs));
    }
  }

  lemma EmptySubmap(n: map<bytes, Value>)
    ensures Submap(map[], n)
  {
  }

  lemma {:induction false} CopyIsComparable(d: Shape, t: Shape, cs: bool)
    requires Copies(d, t, true) && Comparable(t, cs)
    ensures Comparable(d, cs)
    decreases d, 1
  {
    if t.kind == ArrayKind || t.kind == ObjectKind {
      CopiesAreComparable(d.kids, t.kids, cs);
    }
  }

  lemma {:induction false} CopiesAreComparable(ds: List<Shape>, ts: List<Shape>, cs: bool)
    requires CopiesList(ds, ts)
    ensures ComparableItems(ts, cs) ==> ComparableItems(ds, cs)
    ensures ComparableMembers(ts, cs) ==> ComparableMembers(ds, cs)
    decreases ds, 0
  {
    if ds.Cons? {
      if Comparable(ts.head, cs) {
        CopyIsComparable(ds.head, ts.head, cs);
      }
      CopiesAreComparable(ds.tail, ts.tail, cs);
      SameKeys(ds.tail, ts.tail, TextOf(ts.head.name), cs);
    }
  }

  lemma {:induction false} SameKeys(ds: List<Shape>, ts: List<Shape>, key: bytes, cs: bool)
    requires CopiesList(ds, ts)
    ensures HasKey(ds, key, cs) == HasKey(ts, key, cs)
    decreases ds
  {
    if ds.Cons? {
      SameKeys(ds.tail, ts.tail, key, cs);
    }
  }

  /** So the comparison is an equivalence: reflexive on copies, symmetric, transitive. */
  lemma CopiesAreEqual(d: Shape, t: Shape, cs: bool)
    requires Copies(d, t, true) && Comparable(t, cs) && Shows(d) && Shows(t)
    ensures Equal(d, t, cs)
  {
    CopyIsComparable(d, t, cs);
    CopyMeansTheSame(d, t);
    EqualMeansSame(d, t, cs);
  }

  lemma EqualIsAnEquivalence(a: Shape, b: Shape, c: Shape, cs: bool)
    requires Comparable(a, cs) && Comparable(b, cs) && Comparable(c, cs) && Shows(a) && Shows(b) && Shows(c)
    ensures Equal(a, b, cs) == Equal(b, a, cs)
    ensures Equal(a, b, cs) && Equal(b, c, cs) ==> Equal(a, c, cs)
  {
    EqualMeansSame(a, b, cs);
    EqualMeansSame(b, a, cs);
    EqualMeansSame(b, c, cs);
    EqualMeansSame(a, c, cs);
  }

  // ---- cJSON_Compare -------------------------------------------------------------------------

  /** strcmp(p, q) == 0. */
  method SameString(p: array<byte>, ghost c: Option<Cell>, q: array<byte>, ghost d: Option<Cell>) returns (same: bool)
    requires CellIs(p, c) && CellIs(q, d)
    ensures same <==> TextOf(c) == TextOf(d)
  {
    ghost var s, t := TextOf(c), TextOf(d);
    var i := 0;
    CellEnds(p, c, i);
    CellEnds(q, d, i);
    while p[i] != NUL && p[i] == q[i]
      invariant i <= |s| && i <= |t| && s[..i] == t[..i]
      invariant (i < |s| ==> p[i] == s[i]) && (p[i] == NUL <==> i == |s|)
      invariant (i < |t| ==> q[i] == t[i]) && (q[i] == NUL <==> i == |t|)
      decreases |s| - i
    {
      i := i + 1;
      CellEnds(p, c, i);
      CellEnds(q, d, i);
    }
    same := p[i] == q[i];
    DecidedAt(s, t, i);
  }

  /** Two strings that agree up to i are equal if both end there, and differ if they
      differ there. */
  lemma DecidedAt(s: bytes, t: bytes, i: nat)
    requires i <= |s| && i <= |t| && s[..i] == t[..i]
    ensures i == |s| && i == |t| ==> s == t
    ensures s == t && i < |s| ==> s[i] == t[i]
  {
    assert s[..|s|] == s && t[..|t|] == t;
  }

  /** case_insensitive_strcmp(p, q) == 0. A null pointer equals nothing. */
  method SameStringIgnoringCase(p: array?<byte>, ghost c: Option<Cell>, q: array?<byte>, ghost d: Option<Cell>)
    returns (same: bool)
    requires CellIs(p, c) && CellIs(q, d)
    ensures same <==> c.Some? && d.Some? && SameIgnoringCase(TextOf(c), TextOf(d))
  {
    if p == null || q == null {
      return false;
    }
    hide ToLower, SameLetter;
    ghost var s, t := TextOf(c), TextOf(d);
    if p == q {
      OneText(p, c, d);
      AlikeToItself(s);
      return true;
    }
    var i := 0;
    CellEnds(p, c, i);
    CellEnds(q, d, i);
    while p[i] != NUL && ToLower(p[i]) == ToLower(q[i])
      invariant i <= |s| && i <= |t| && forall k :: 0 <= k < i ==> SameLetter(s[k], t[k])
      invariant (i < |s| ==> p[i] == s[i]) && (p[i] == NUL <==> i == |s|)
      invariant (i < |t| ==> q[i] == t[i]) && (q[i] == NUL <==> i == |t|)
      decreases |s| - i
    {
      LowerLetters(p[i], q[i]);
      NulIsNoLetter(p[i], q[i]);
      i := i + 1;
      CellEnds(p, c, i);
      CellEnds(q, d, i);
    }
    same := ToLower(p[i]) == ToLower(q[i]);
    LowerLetters(p[i], q[i]);
    NulIsNoLetter(p[i], q[i]);
  }

  lemma AlikeToItself(s: bytes)
    ensures SameIgnoringCase(s, s)
  {
  }

  lemma NulIsNoLetter(x: byte, y: byte)
    ensures SameLetter(x, y) ==> (x == NUL <==> y == NUL)
  {
  }

  function NodeOf(found: Option<Shape>): Node? {
    match found
    case None => null
    case Some(t) => t.node
  }

  /** get_object_item over the members kids of owner. */
  method GetObjectItem(owner: Node?, name: array?<byte>, caseSensitive: bool, ghost cell: Option<Cell>,
                       ghost kids: List<Shape>, ghost tree: set<object>)
    returns (item: Node?, ghost found: Option<Shape>)
    requires owner != null ==> owner.child == HeadNode(kids) && ShowsList(kids)
    requires CellIs(name, cell) && ReachList(kids) + Buffers(cell) <= tree
    ensures item == NodeOf(if owner == null then None else Find(kids, cell, caseSensitive))
    ensures found == if owner == null then None else Find(kids, cell, caseSensitive)
    ensures found.Some? ==> Shows(found.value) && Reach(found.value) <= tree
  {
    found := None;
    if owner == null || name == null {
      return null, None;
    }
    var current := owner.child;
    ghost var rest := kids;
    var searching := current != null;
    while searching
      invariant HeadNode(rest) == current && ShowsList(rest) && ReachList(rest) <= tree && CellIs(name, cell)
      invariant Find(rest, cell, caseSensitive) == Find(kids, cell, caseSensitive)
      invariant searching ==> current != null
      invariant !searching ==>
        match Find(rest, cell, caseSensitive)
        case None => current == null || current.name == null
        case Some(t) => current != null && current.name != null && t == rest.head
      decreases rest, searching
    {
      var here := false;
      if caseSensitive {
        here := current.name == null;
        if !here {
          here := SameString(name, cell, current.name, rest.head.name);
        }
      } else {
        here := SameStringIgnoringCase(name, cell, current.name, rest.head.name);
      }
      if here {
        searching := false;
      } else {
        current, rest := current.next, rest.tail;
        searching := current != null;
      }
    }
    if current == null || current.name == null {
      return null, None;
    }
    item, found := current, Some(rest.head);
  }

  // In the methods below, the ghost lists describe what the pointers lead to: Nil for null.

  method Compare(a: Node?, b: Node?, caseSensitive: bool, ghost ra: List<Shape>, ghost rb: List<Shape>,
                 ghost tree: set<object>)
    returns (equal: bool)
    requires ReachList(ra) + ReachList(rb) <= tree
    requires HeadNode(ra) == a && (ra.Cons? ==> ra.tail == Nil && Shows(ra.head))
    requires HeadNode(rb) == b && (rb.Cons? ==> rb.tail == Nil && Shows(rb.head))
    ensures equal <==> a != null && b != null && Equal(ra.head, rb.head, caseSensitive)
    decreases SizeOf(ra) + SizeOf(rb), 3
  {
    hide Find, CloseTo;
    OneSize(ra);
    OneSize(rb);
    if a == null || b == null || a.kind != b.kind || a.kind == Invalid {
      return false;
    }
    if a == b {
      return true;
    }
    ghost var s, t := ra.head, rb.head;
    match a.kind {
      case NumberKind =>
        equal := CloseTo(a.valuedouble, b.valuedouble);
      case StringKind =>
        if a.valuestring == null || b.valuestring == null {
          return false;
        }
        equal := SameString(a.valuestring, s.str, b.valuestring, t.str);
      case ArrayKind =>
        equal := CompareItems(a.child, b.child, caseSensitive, s.kids, t.kids, tree);
      case ObjectKind =>
        equal := CoverMembers(a.child, b, caseSensitive, s.kids, t.kids, tree);
        if equal {
          equal := CoverMembers(b.child, a, caseSensitive, t.kids, s.kids, tree);
        }
      case _ =>
        equal := true;
    }
  }

  lemma OneSize(ts: List<Shape>)
    ensures ts.Cons? && ts.tail == Nil ==> SizeOf(ts) == Size(ts.head) == 1 + SizeOf(ts.head.kids)
    ensures ts.Cons? ==> Size(ts.head) + SizeOf(ts.tail) == SizeOf(ts) && Size(ts.head) > 0
  {
  }

  method CompareItems(a: Node?, b: Node?, caseSensitive: bool, ghost xs: List<Shape>, ghost ys: List<Shape>,
                      ghost tree: set<object>)
    returns (equal: bool)
    requires ReachList(xs) + ReachList(ys) <= tree
    requires HeadNode(xs) == a && ShowsList(xs) && HeadNode(ys) == b && ShowsList(ys)
    ensures equal <==> EqualItems(xs, ys, caseSensitive)
    decreases SizeOf(xs) + SizeOf(ys), 4
  {
    hide Equal, Shows;
    var aElement, bElement := a, b;
    ghost var us, vs := xs, ys;
    while aElement != null && bElement != null
      invariant HeadNode(us) == aElement && ShowsList(us) && HeadNode(vs) == bElement && ShowsList(vs)
      invariant ReachList(us) + ReachList(vs) <= tree && SizeOf(us) + SizeOf(vs) <= SizeOf(xs) + SizeOf(ys)
      invariant EqualItems(us, vs, caseSensitive) == EqualItems(xs, ys, caseSensitive)
      decreases SizeOf(us) + SizeOf(vs)
    {
      ghost var u, v := Cons(us.head, Nil), Cons(vs.head, Nil);
      OneSize(us);
      OneSize(vs);
      OneSize(u);
      OneSize(v);
      var same := Compare(aElement, bElement, caseSensitive, u, v, tree);
      if !same {
        return false;
      }
      aElement, bElement := aElement.next, bElement.next;
      us, vs := us.tail, vs.tail;
    }
    equal := aElement == bElement;
  }

  /** One of the two loops over the members of an object: other holds the members ys. */
  method CoverMembers(first: Node?, other: Node, caseSensitive: bool, ghost xs: List<Shape>, ghost ys: List<Shape>,
                      ghost tree: set<object>)
    returns (covered: bool)
    requires ReachList(xs) + ReachList(ys) <= tree && other in tree
    requires HeadNode(xs) == first && ShowsList(xs) && other.child == HeadNode(ys) && ShowsList(ys)
    ensures covered <==> Covers(xs, ys, caseSensitive)
    decreases SizeOf(xs) + SizeOf(ys), 4
  {
    hide Equal, Find;
    var element := first;
    ghost var us := xs;
    while element != null
      invariant HeadNode(us) == element && ShowsList(us) && ReachList(us) <= tree && SizeOf(us) <= SizeOf(xs)
      invariant other.child == HeadNode(ys) && ShowsList(ys)
      invariant Covers(us, ys, caseSensitive) == Covers(xs, ys, caseSensitive)
      decreases SizeOf(us)
    {
      ghost var x := us.head;
      ghost var found;
      var partner;
      partner, found := GetObjectItem(other, element.name, caseSensitive, x.name, ys, tree);
      if partner == null {
        return false;
      }
      ghost var u, v := Cons(x, Nil), Cons(found.value, Nil);
      OneSize(us);
      OneSize(u);
      OneSize(v);
      var same := Compare(element, partner, caseSensitive, u, v, tree);
      if !same {
        return false;
      }
      element, us := element.next, us.tail;
    }
    covered := true;
  }
}
