/** The layout of printed text, told by a reader that knows string literals, brackets,
    commas and colons, but no values: a pen that runs over a text byte by byte and copies it,
    either leaving the blanks out or putting them where they belong. */
module Formatting {
  import opened Bytes
  import opened NumberCodec
  import opened StringCodec
  import opened Lists
  import opened Json

  // ---- the pen -------------------------------------------------------------------------------------

  /** Outside string literals, inside one, or there behind a backslash. */
  datatype Mode = Outside | Inside | Escaped

  /** The brackets open so far, the innermost last; whether a line has just begun; and the
      greatest number of brackets open at once so far. */
  datatype Pen = Pen(mode: Mode, open: bytes, begun: bool, deepest: nat)

  datatype Task = Squeeze | Indent

  predicate InObject(p: Pen) {
    p.open != [] && p.open[|p.open| - 1] == 123
  }

  function Moved(p: Pen, b: byte): Pen {
    match p.mode
    case Escaped => p.(mode := Inside)
    case Inside => if b == 34 then p.(mode := Outside) else if b == 92 then p.(mode := Escaped) else p
    case Outside =>
      if b == 34 then p.(mode := Inside, begun := false)
      else if b == 91 || b == 123 then
        p.(open := p.open + [b], begun := b == 123, deepest := Max(p.deepest, |p.open| + 1))
      else if (b == 93 || b == 125) && p.open != [] then p.(open := p.open[..|p.open| - 1], begun := false)
      else p.(begun := b == 44 && InObject(p))
  }

  function TabStops(n: int): bytes {
    seq(if n < 0 then 0 else n, _ => 9)
  }

  /** Blanks in front of a byte: a member begins its line behind a tab for each open bracket,
      and a closing brace stands on a line of its own, one tab less. */
  function Before(p: Pen, b: byte): bytes {
    if b == 125 then (if p.begun then [] else [10]) + TabStops(|p.open| - 1)
    else if p.begun then TabStops(|p.open|)
    else []
  }

  /** Blanks behind a byte: a line ends behind an opening brace and behind the comma of a
      member, a space follows the comma of an element, and a tab a colon. */
  function Behind(p: Pen, b: byte): bytes {
    if b == 123 then [10]
    else if b == 44 then (if InObject(p) then [10] else [32])
    else if b == 58 then [9]
    else []
  }

  function Ink(task: Task, p: Pen, b: byte): bytes {
    if p.mode != Outside then [b]
    else
      match task
      case Squeeze => if b <= 32 then [] else [b]
      case Indent => Before(p, b) + [b] + Behind(p, b)
  }

  function Written(task: Task, p: Pen, t: bytes): bytes
    decreases |t|
  {
    if t == [] then [] else Ink(task, p, t[0]) + Written(task, Moved(p, t[0]), t[1..])
  }

  function PenAfter(p: Pen, t: bytes): Pen
    decreases |t|
  {
    if t == [] then p else PenAfter(Moved(p, t[0]), t[1..])
  }

  /** From p the pen makes out of t, and ends in q. */
  predicate Writes(task: Task, p: Pen, t: bytes, out: bytes, q: Pen) {
    Written(task, p, t) == out && PenAfter(p, t) == q
  }

  lemma {:induction false} WriteBoth(task: Task, p: Pen, s: bytes, t: bytes)
    ensures Written(task, p, s + t) == Written(task, p, s) + Written(task, PenAfter(p, s), t)
    ensures PenAfter(p, s + t) == PenAfter(PenAfter(p, s), t)
    decreases |s|
  {
    hide Ink, Moved;
    if s == [] {
      assert s + t == t;
    } else {
      assert (s + t)[1..] == s[1..] + t;
      WriteBoth(task, Moved(p, s[0]), s[1..], t);
    }
  }

  lemma WritesConcat(task: Task, p: Pen, s: bytes, u: bytes, q: Pen, t: bytes, v: bytes, r: Pen)
    requires Writes(task, p, s, u, q) && Writes(task, q, t, v, r)
    ensures Writes(task, p, s + t, u + v, r)
  {
    hide Written, PenAfter;
    WriteBoth(task, p, s, t);
  }

  lemma WritesOne(task: Task, p: Pen, b: byte)
    ensures Writes(task, p, [b], Ink(task, p, b), Moved(p, b))
  {
    assert [b][1..] == [];
    assert Ink(task, p, b) + [] == Ink(task, p, b);
  }

  // ---- literals ------------------------------------------------------------------------------------

  lemma {:induction false} WritesInside(task: Task, p: Pen, t: bytes)
    requires p.mode == Inside && 34 !in t && 92 !in t
    ensures Writes(task, p, t, t, p)
    decreases |t|
  {
    if t != [] {
      WritesInside(task, p, t[1..]);
      assert [t[0]] + t[1..] == t;
    }
  }

  lemma WritesEscapeByte(task: Task, p: Pen, b: byte)
    requires p.mode == Inside
    ensures Writes(task, p, EscapeByte(b), EscapeByte(b), p)
  {
    hide Written, PenAfter;
    var t := EscapeByte(b);
    if |t| == 1 {
      WritesInside(task, p, t);
    } else {
      var q := p.(mode := Escaped);
      WritesOne(task, p, t[0]);
      WritesOne(task, q, t[1]);
      WritesConcat(task, p, [t[0]], [t[0]], q, [t[1]], [t[1]], p);
      WritesInside(task, p, t[2..]);
      WritesConcat(task, p, [t[0]] + [t[1]], [t[0]] + [t[1]], p, t[2..], t[2..], p);
      assert [t[0]] + [t[1]] + t[2..] == t;
    }
  }

  lemma {:induction false} WritesEscape(task: Task, p: Pen, s: bytes)
    requires p.mode == Inside
    ensures Writes(task, p, Escape(s), Escape(s), p)
    decreases |s|
  {
    hide Written, PenAfter, EscapeByte;
    if s == [] {
      WritesInside(task, p, []);
    } else {
      WritesEscapeByte(task, p, s[0]);
      WritesEscape(task, p, s[1..]);
      WritesConcat(task, p, EscapeByte(s[0]), EscapeByte(s[0]), p, Escape(s[1..]), Escape(s[1..]), p);
    }
  }

  /** A string literal is copied, on its line. */
  lemma WritesQuote(task: Task, p: Pen, s: bytes)
    requires p.mode == Outside
    ensures Writes(task, p, Quote(s), (if task == Indent && p.begun then TabStops(|p.open|) else []) + Quote(s),
                   p.(begun := false))
  {
    hide Written, PenAfter, Escape, TabStops;
    var lead := if task == Indent && p.begun then TabStops(|p.open|) else [];
    var q := p.(mode := Inside, begun := false);
    WritesOne(task, p, 34);
    WritesEscape(task, q, s);
    WritesOne(task, q, 34);
    assert Ink(task, p, 34) == lead + [34];
    WritesConcat(task, p, [34], lead + [34], q, Escape(s), Escape(s), q);
    WritesConcat(task, p, [34] + Escape(s), lead + [34] + Escape(s), q, [34], [34], p.(begun := false));
    assert lead + [34] + Escape(s) + [34] == lead + Quote(s);
  }

  /** Bytes that mean nothing to the layout. */
  predicate Plain(t: bytes) {
    forall i :: 0 <= i < |t| ==> t[i] > 32 && t[i] !in {34, 44, 58, 91, 93, 123, 125}
  }

  lemma {:induction false} WritesPlain(task: Task, p: Pen, t: bytes)
    requires p.mode == Outside && !p.begun && Plain(t)
    ensures Writes(task, p, t, t, p)
    decreases |t|
  {
    if t != [] {
      WritesPlain(task, p, t[1..]);
      assert [t[0]] + t[1..] == t;
    }
  }

  lemma LeafIsPlain(j: Json, fmt: bool, depth: nat)
    requires !j.String? && !j.Array? && !j.Object?
    ensures Plain(Render(j, fmt, depth))
  {
  }

  // ---- putting blanks in ---------------------------------------------------------------------------

  /** The pen outside literals and within a line, with depth brackets open. */
  predicate InLine(p: Pen, depth: nat) {
    p.mode == Outside && !p.begun && |p.open| == depth <= p.deepest
  }

  function Deepened(p: Pen, n: nat): Pen {
    p.(deepest := Max(p.deepest, n))
  }

  /** The pen turns the unformatted text of a value into the formatted one, and on its way
      has as many brackets open at once as the value is nested. */
  lemma {:induction false} Indents(p: Pen, j: Json, depth: nat)
    requires InLine(p, depth)
    ensures Writes(Indent, p, Render(j, false, depth), Render(j, true, depth), Deepened(p, depth + Nesting(j)))
    decreases j, 2
  {
    hide Written, PenAfter, Writes, Render;
    match j {
      case Array(items) => IndentsArray(p, items, depth);
      case Object(members) => IndentsObject(p, members, depth);
      case _ => IndentsLeaf(p, j, depth);
    }
  }

  lemma IndentsLeaf(p: Pen, j: Json, depth: nat)
    requires InLine(p, depth) && !j.Array? && !j.Object?
    ensures Writes(Indent, p, Render(j, false, depth), Render(j, true, depth), p)
  {
    hide Written, PenAfter, Plain;
    match j {
      case String(s) => WritesQuote(Indent, p, s);
      case _ =>
        LeafIsPlain(j, false, depth);
        WritesPlain(Indent, p, Render(j, false, depth));
    }
  }

  /** Within p, brackets opened and closed again: what remains is how deep the pen got. */
  lemma Closes(p: Pen, q: Pen, opening: byte, closing: byte)
    requires p.mode == q.mode == Outside && q.open == p.open + [opening] && closing in {93, 125}
    ensures Moved(q, closing) == p.(begun := false, deepest := q.deepest)
  {
    assert q.open[..|p.open|] == p.open;
  }

  lemma {:induction false} IndentsArray(p: Pen, items: List<Json>, depth: nat)
    requires InLine(p, depth)
    ensures Writes(Indent, p, Render(Array(items), false, depth), Render(Array(items), true, depth),
                   Deepened(p, depth + 1 + NestingItems(items)))
    decreases items, 1
  {
    hide Written, PenAfter, RenderItems, NestingItems;
    var q := Moved(p, 91);
    var r := Deepened(q, depth + 1 + NestingItems(items));
    var t, u := RenderItems(items, false, depth + 1), RenderItems(items, true, depth + 1);
    WritesOne(Indent, p, 91);
    IndentsItems(q, items, depth + 1);
    WritesOne(Indent, r, 93);
    Closes(p, r, 91, 93);
    WritesConcat(Indent, p, [91], [91], q, t, u, r);
    WritesConcat(Indent, p, [91] + t, [91] + u, r, [93], [93], Moved(r, 93));
  }

  lemma {:induction false} IndentsItems(p: Pen, items: List<Json>, depth: nat)
    requires InLine(p, depth) && depth > 0 && p.open[depth - 1] == 91
    ensures Writes(Indent, p, RenderItems(items, false, depth), RenderItems(items, true, depth),
                   Deepened(p, depth + NestingItems(items)))
    decreases items, 0
  {
    hide Written, PenAfter, Render, Nesting;
    if items.Nil? {
      WritesPlain(Indent, p, []);
    } else {
      var j, rest := items.head, items.tail;
      var q := Deepened(p, depth + Nesting(j));
      var t, u := Render(j, false, depth), Render(j, true, depth);
      var comma, space := ItemSeparator(false, rest.Nil?), ItemSeparator(true, rest.Nil?);
      Indents(p, j, depth);
      if rest.Nil? {
        WritesPlain(Indent, q, []);
      } else {
        WritesOne(Indent, q, 44);
        assert comma == [44] && space == [44, 32];
      }
      WritesConcat(Indent, p, t, u, q, comma, space, q);
      IndentsItems(q, rest, depth);
      WritesConcat(Indent, p, t + comma, u + space, q, RenderItems(rest, false, depth), RenderItems(rest, true, depth),
                   Deepened(q, depth + NestingItems(rest)));
    }
  }

  lemma {:induction false} TabsAreTabStops(n: nat)
    ensures Tabs(n) == TabStops(n)
  {
    if n > 0 {
      TabsAreTabStops(n - 1);
      assert [9] + TabStops(n - 1) == TabStops(n);
    }
  }

  lemma EmptyText(depth: nat)
    ensures Render(Object(Nil), false, depth) == [123] + [125]
    ensures Render(Object(Nil), true, depth) == [123, 10] + (TabStops(depth) + [125])
  {
    hide Tabs, TabStops;
    TabsAreTabStops(depth);
    NoMembers(depth + 1);
    assert [123] + [10] + [] + TabStops(depth) + [125] == [123, 10] + (TabStops(depth) + [125]);
  }

  lemma IndentsEmpty(p: Pen, depth: nat)
    requires InLine(p, depth)
    ensures Writes(Indent, p, Render(Object(Nil), false, depth), Render(Object(Nil), true, depth),
                   Deepened(p, depth + 1))
  {
    hide Written, PenAfter, Render, TabStops;
    var q := Moved(p, 123);
    EmptyText(depth);
    WritesOne(Indent, p, 123);
    WritesOne(Indent, q, 125);
    Closes(p, q, 123, 125);
    WritesConcat(Indent, p, [123], [123, 10], q, [125], TabStops(depth) + [125], Moved(q, 125));
  }

  lemma BracedText(members: List<Member>, depth: nat, out: bytes)
    requires out + [10] == RenderMembers(members, true, depth + 1)
    ensures Render(Object(members), false, depth) == [123] + RenderMembers(members, false, depth + 1) + [125]
    ensures Render(Object(members), true, depth) == [123, 10] + out + ([10] + TabStops(depth) + [125])
  {
    hide RenderMembers, Tabs, TabStops;
    TabsAreTabStops(depth);
    var t := RenderMembers(members, false, depth + 1);
    assert [123] + [] + t + [] + [125] == [123] + t + [125];
    assert [123] + [10] + (out + [10]) + TabStops(depth) + [125]
        == [123, 10] + out + ([10] + TabStops(depth) + [125]);
  }

  lemma {:induction false} IndentsObject(p: Pen, members: List<Member>, depth: nat)
    requires InLine(p, depth)
    ensures Writes(Indent, p, Render(Object(members), false, depth), Render(Object(members), true, depth),
                   Deepened(p, depth + 1 + NestingMembers(members)))
    decreases members, 1
  {
    hide Written, PenAfter, Render, RenderMembers, NestingMembers, TabStops;
    if members.Nil? {
      IndentsEmpty(p, depth);
      NoMembers(depth);
    } else {
      var q := Moved(p, 123);
      var r := Deepened(q, depth + 1 + NestingMembers(members)).(begun := false);
      var t := RenderMembers(members, false, depth + 1);
      WritesOne(Indent, p, 123);
      var out := IndentsMembers(q, members, depth + 1);
      WritesOne(Indent, r, 125);
      Closes(p, r, 123, 125);
      WritesConcat(Indent, p, [123], [123, 10], q, t, out, r);
      WritesConcat(Indent, p, [123] + t, [123, 10] + out, r, [125], [10] + TabStops(depth) + [125], Moved(r, 125));
      BracedText(members, depth, out);
    }
  }

  lemma NoMembers(depth: nat)
    ensures RenderMembers(Nil, false, depth) == [] && RenderMembers(Nil, true, depth) == [] && NestingMembers(Nil) == 0
  {
  }

  /** A key and its colon, at the beginning of a line. */
  lemma IndentsLead(p: Pen, key: bytes, depth: nat)
    requires p.mode == Outside && p.begun && |p.open| == depth
    ensures Writes(Indent, p, MemberLead(key, false, depth), MemberLead(key, true, depth), p.(begun := false))
  {
    hide Written, PenAfter, Quote, Tabs, TabStops;
    TabsAreTabStops(depth);
    var q := p.(begun := false);
    WritesQuote(Indent, p, key);
    WritesOne(Indent, q, 58);
    WritesConcat(Indent, p, Quote(key), TabStops(depth) + Quote(key), q, [58], [58, 9], q);
    assert MemberLead(key, false, depth) == Quote(key) + [58];
    assert MemberLead(key, true, depth) == TabStops(depth) + Quote(key) + [58, 9];
  }

  /** The members' lines, but for the end of the last one. */
  lemma {:induction false} IndentsMembers(p: Pen, members: List<Member>, depth: nat) returns (out: bytes)
    requires p.mode == Outside && p.begun && |p.open| == depth <= p.deepest
    requires depth > 0 && p.open[depth - 1] == 123 && members.Cons?
    ensures Writes(Indent, p, RenderMembers(members, false, depth), out,
                   Deepened(p, depth + NestingMembers(members)).(begun := false))
    ensures out + [10] == RenderMembers(members, true, depth)
    decreases members, 0
  {
    hide Written, PenAfter, Render, MemberLead, Nesting;
    var m, rest := members.head, members.tail;
    var q := p.(begun := false);
    var r := Deepened(q, depth + Nesting(m.value));
    var lead, t := MemberLead(m.key, false, depth), Render(m.value, false, depth);
    var lead', t' := MemberLead(m.key, true, depth), Render(m.value, true, depth);
    IndentsLead(p, m.key, depth);
    Indents(q, m.value, depth);
    WritesConcat(Indent, p, lead, lead', q, t, t', r);
    if rest.Nil? {
      out := lead' + t';
      LastMember(m, depth);
    } else {
      WritesOne(Indent, r, 44);
      WritesConcat(Indent, p, lead + t, lead' + t', r, [44], [44, 10], r.(begun := true));
      var more := IndentsMembers(r.(begun := true), rest, depth);
      WritesConcat(Indent, p, lead + t + [44], lead' + t' + [44, 10], r.(begun := true),
                   RenderMembers(rest, false, depth), more,
                   Deepened(r, depth + NestingMembers(rest)));
      out := lead' + t' + [44, 10] + more;
      assert MemberEnd(true, false) == [44, 10] && MemberEnd(false, false) == [44];
      assert out + [10] == lead' + t' + [44, 10] + (more + [10]);
    }
  }

  lemma LastMember(m: Member, depth: nat)
    ensures RenderMembers(Cons(m, Nil), false, depth) == MemberLead(m.key, false, depth) + Render(m.value, false, depth)
    ensures RenderMembers(Cons(m, Nil), true, depth)
         == MemberLead(m.key, true, depth) + Render(m.value, true, depth) + [10]
  {
  }

  /** What the formatted text of a value is, and how deeply the value is nested. */
  lemma FormattedIsIndented(j: Json)
    ensures var p, text := Pen(Outside, [], false, 0), Render(j, false, 0);
      && Written(Indent, p, text) == Render(j, true, 0)
      && PenAfter(p, text) == Pen(Outside, [], false, Nesting(j))
  {
    hide Written, PenAfter;
    Indents(Pen(Outside, [], false, 0), j, 0);
  }

  // ---- taking blanks out ---------------------------------------------------------------------------

  /** The pen is outside literals before and after a text, and leaves out of it. */
  predicate SqueezesTo(p: Pen, t: bytes, out: bytes) {
    Written(Squeeze, p, t) == out && PenAfter(p, t).mode == Outside
  }

  lemma SqueezeBoth(p: Pen, s: bytes, u: bytes, t: bytes, v: bytes)
    requires SqueezesTo(p, s, u) && SqueezesTo(PenAfter(p, s), t, v)
    ensures SqueezesTo(p, s + t, u + v)
  {
    hide Written, PenAfter;
    WriteBoth(Squeeze, p, s, t);
  }

  /** Bytes other than quotes leave the pen outside; those up to 32 are gone. */
  lemma {:induction false} SqueezesBytes(p: Pen, t: bytes)
    requires p.mode == Outside && 34 !in t
    ensures (forall i :: 0 <= i < |t| ==> t[i] > 32) ==> SqueezesTo(p, t, t)
    ensures (forall i :: 0 <= i < |t| ==> t[i] <= 32) ==> SqueezesTo(p, t, [])
    decreases |t|
  {
    if t != [] {
      SqueezesBytes(Moved(p, t[0]), t[1..]);
      assert [t[0]] + t[1..] == t;
    }
  }

  lemma {:induction false} TabsAreTabs(n: nat)
    ensures forall i :: 0 <= i < n ==> Tabs(n)[i] == 9
  {
    if n > 0 {
      TabsAreTabs(n - 1);
    }
  }

  /** A line break, or a space or a tab, if there is one. */
  lemma SqueezesBlanks(p: Pen, fmt: bool, n: nat)
    requires p.mode == Outside
    ensures SqueezesTo(p, When(fmt, Tabs(n)), []) && SqueezesTo(p, When(fmt, [NEWLINE]), [])
    ensures SqueezesTo(p, When(fmt, [SPACE]), []) && SqueezesTo(p, When(fmt, [TAB]), [])
  {
    hide Written, PenAfter, Tabs;
    TabsAreTabs(n);
    SqueezesBytes(p, When(fmt, Tabs(n)));
    SqueezesBytes(p, When(fmt, [NEWLINE]));
    SqueezesBytes(p, When(fmt, [SPACE]));
    SqueezesBytes(p, When(fmt, [TAB]));
  }

  /** The blanks of the formatted text are all that it has more than the unformatted one,
      which has none, wherever each of them stands. */
  lemma {:induction false} Squeezes(p: Pen, j: Json, fmt: bool, d: nat, e: nat)
    requires p.mode == Outside
    ensures SqueezesTo(p, Render(j, fmt, d), Render(j, false, e))
    decreases j, 2
  {
    hide SqueezesTo, Render;
    match j {
      case Array(items) => SqueezesArray(p, items, fmt, d, e);
      case Object(members) => SqueezesObject(p, members, fmt, d, e);
      case _ => SqueezesLeaf(p, j, fmt, d, e);
    }
  }

  lemma SqueezesLeaf(p: Pen, j: Json, fmt: bool, d: nat, e: nat)
    requires p.mode == Outside && !j.Array? && !j.Object?
    ensures SqueezesTo(p, Render(j, fmt, d), Render(j, false, e))
  {
    hide Written, PenAfter, Quote, FormatInt;
    match j {
      case String(s) => WritesQuote(Squeeze, p, s);
      case _ => SqueezesBytes(p, Render(j, fmt, d));
    }
  }

  lemma {:induction false} SqueezesArray(p: Pen, items: List<Json>, fmt: bool, d: nat, e: nat)
    requires p.mode == Outside
    ensures SqueezesTo(p, Render(Array(items), fmt, d), Render(Array(items), false, e))
    decreases items, 1
  {
    hide Written, PenAfter, RenderItems;
    var t, u := RenderItems(items, fmt, d + 1), RenderItems(items, false, e + 1);
    SqueezesBytes(p, [91]);
    SqueezesItems(PenAfter(p, [91]), items, fmt, d + 1, e + 1);
    SqueezeBoth(p, [91], [91], t, u);
    SqueezesBytes(PenAfter(p, [91] + t), [93]);
    SqueezeBoth(p, [91] + t, [91] + u, [93], [93]);
  }

  lemma {:induction false} SqueezesItems(p: Pen, items: List<Json>, fmt: bool, d: nat, e: nat)
    requires p.mode == Outside
    ensures SqueezesTo(p, RenderItems(items, fmt, d), RenderItems(items, false, e))
    decreases items, 0
  {
    hide Written, PenAfter, Render;
    if items.Nil? {
      SqueezesBytes(p, []);
    } else {
      var j, last := items.head, items.tail.Nil?;
      var t, u := Render(j, fmt, d), Render(j, false, e);
      var comma, bare := ItemSeparator(fmt, last), ItemSeparator(false, last);
      Squeezes(p, j, fmt, d, e);
      SqueezesSeparator(PenAfter(p, t), fmt, last);
      SqueezeBoth(p, t, u, comma, bare);
      SqueezesItems(PenAfter(p, t + comma), items.tail, fmt, d, e);
      SqueezeBoth(p, t + comma, u + bare, RenderItems(items.tail, fmt, d), RenderItems(items.tail, false, e));
    }
  }

  lemma SqueezesSeparator(p: Pen, fmt: bool, last: bool)
    requires p.mode == Outside
    ensures SqueezesTo(p, ItemSeparator(fmt, last), ItemSeparator(false, last))
    ensures SqueezesTo(p, MemberEnd(fmt, last), MemberEnd(false, last))
  {
    hide Written, PenAfter;
    var comma := if last then [] else [44];
    SqueezesBytes(p, comma);
    var q := PenAfter(p, comma);
    SqueezesBlanks(q, fmt, 0);
    SqueezeBoth(p, comma, comma, When(fmt && !last, [SPACE]), []);
    SqueezeBoth(p, comma, comma, When(fmt, [NEWLINE]), []);
  }

  lemma SqueezesLead(p: Pen, key: bytes, fmt: bool, d: nat, e: nat)
    requires p.mode == Outside
    ensures SqueezesTo(p, MemberLead(key, fmt, d), MemberLead(key, false, e))
  {
    hide Written, PenAfter, Quote, Tabs;
    var tabs, quoted, tab := When(fmt, Tabs(d)), Quote(key), When(fmt, [TAB]);
    SqueezesBlanks(p, fmt, d);
    WritesQuote(Squeeze, PenAfter(p, tabs), key);
    SqueezeBoth(p, tabs, [], quoted, quoted);
    SqueezesBytes(PenAfter(p, tabs + quoted), [58]);
    SqueezeBoth(p, tabs + quoted, [] + quoted, [58], [58]);
    SqueezesBlanks(PenAfter(p, tabs + quoted + [58]), fmt, d);
    SqueezeBoth(p, tabs + quoted + [58], [] + quoted + [58], tab, []);
  }

  lemma {:induction false} SqueezesMembers(p: Pen, members: List<Member>, fmt: bool, d: nat, e: nat)
    requires p.mode == Outside
    ensures SqueezesTo(p, RenderMembers(members, fmt, d), RenderMembers(members, false, e))
    decreases members, 0
  {
    hide Written, PenAfter, Render, MemberLead, MemberEnd;
    if members.Nil? {
      SqueezesBytes(p, []);
    } else {
      var m, rest := members.head, members.tail;
      var lead, lead' := MemberLead(m.key, fmt, d), MemberLead(m.key, false, e);
      var t, t' := Render(m.value, fmt, d), Render(m.value, false, e);
      var end, end' := MemberEnd(fmt, rest.Nil?), MemberEnd(false, rest.Nil?);
      SqueezesLead(p, m.key, fmt, d, e);
      Squeezes(PenAfter(p, lead), m.value, fmt, d, e);
      SqueezeBoth(p, lead, lead', t, t');
      SqueezesSeparator(PenAfter(p, lead + t), fmt, rest.Nil?);
      SqueezeBoth(p, lead + t, lead' + t', end, end');
      SqueezesMembers(PenAfter(p, lead + t + end), rest, fmt, d, e);
      SqueezeBoth(p, lead + t + end, lead' + t' + end', RenderMembers(rest, fmt, d), RenderMembers(rest, false, e));
    }
  }

  lemma {:induction false} SqueezesObject(p: Pen, members: List<Member>, fmt: bool, d: nat, e: nat)
    requires p.mode == Outside
    ensures SqueezesTo(p, Render(Object(members), fmt, d), Render(Object(members), false, e))
    decreases members, 1
  {
    hide Written, PenAfter, RenderMembers, Tabs;
    var nl, tabs := When(fmt, [NEWLINE]), When(fmt, Tabs(d));
    var t, u := RenderMembers(members, fmt, d + 1), RenderMembers(members, false, e + 1);
    SqueezesBytes(p, [123]);
    SqueezesBlanks(PenAfter(p, [123]), fmt, d);
    SqueezeBoth(p, [123], [123], nl, []);
    SqueezesMembers(PenAfter(p, [123] + nl), members, fmt, d + 1, e + 1);
    SqueezeBoth(p, [123] + nl, [123] + [], t, u);
    SqueezesBlanks(PenAfter(p, [123] + nl + t), fmt, d);
    SqueezeBoth(p, [123] + nl + t, [123] + [] + u, tabs, []);
    SqueezesBytes(PenAfter(p, [123] + nl + t + tabs), [125]);
    SqueezeBoth(p, [123] + nl + t + tabs, [123] + [] + u + [], [125], [125]);
  }

  /** Without the blanks outside its string literals, either text is the unformatted one. */
  lemma SqueezedIsUnformatted(j: Json, fmt: bool)
    ensures Written(Squeeze, Pen(Outside, [], false, 0), Render(j, fmt, 0)) == Render(j, false, 0)
  {
    hide Written, PenAfter, Render;
    Squeezes(Pen(Outside, [], false, 0), j, fmt, 0, 0);
  }
}
