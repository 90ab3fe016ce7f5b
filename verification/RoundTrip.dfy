/** The print/parse inverse: what the printer renders is a text of the printed value,
    so the parser reads it back. */
module RoundTrip {
  import opened Bytes
  import opened NumberCodec
  import opened StringCodec
  import opened Lists
  import opened Json
  import opened ConcreteSyntax
  import opened Acceptance

  // ---- the syntax tree of a rendering -----------------------------------------------------

  function Layout(j: Json, fmt: bool, depth: nat): Text
    decreases j, 1
  {
    match j
    case Null => NullText
    case False => FalseText
    case True => TrueText
    case Number(d) => NumberText(d, |FormatInt(ToInt(d))|)
    case String(s) => StringText(s, true, |Quote(s)|)
    case Array(Nil) => EmptyArray(0)
    case Array(items) => ArrayText(LayoutItems(items, fmt, depth + 1, 0))
    case Object(Nil) => EmptyObject(if fmt then 1 + depth else 0)
    case Object(members) => ObjectText(LayoutMembers(members, fmt, depth + 1))
  }

  /** gap blanks stand in front of the first item. */
  function LayoutItems(items: List<Json>, fmt: bool, depth: nat, gap: nat): Chain<Item>
    requires items.Cons?
    decreases items, 0
  {
    var i := Item(gap, Layout(items.head, fmt, depth), 0);
    if items.tail.Nil? then Last(i) else More(i, LayoutItems(items.tail, fmt, depth, if fmt then 1 else 0))
  }

  /** A member's line starts behind the newline of the line before it. */
  function LayoutMembers(members: List<Member>, fmt: bool, depth: nat): Chain<Entry>
    requires members.Cons? && depth > 0
    decreases members, 0
  {
    var m := members.head;
    var last := members.tail.Nil?;
    var e := Entry(if fmt then 1 + depth else 0, m.key, true, |Quote(m.key)|, 0, if fmt then 1 else 0,
                   Layout(m.value, fmt, depth), if fmt && last then depth else 0);
    if last then Last(e) else More(e, LayoutMembers(members.tail, fmt, depth))
  }

  lemma {:induction false} LayoutMeans(j: Json, fmt: bool, depth: nat)
    requires Printable(j)
    ensures Value(Layout(j, fmt, depth)) == j && AllPaired(Layout(j, fmt, depth))
    decreases j, 1
  {
    match j {
      case Array(items) =>
        if items.Cons? {
          LayoutItemsMean(items, fmt, depth + 1, 0);
        }
      case Object(members) =>
        if members.Cons? {
          LayoutMembersMean(members, fmt, depth + 1);
        }
      case _ =>
    }
  }

  lemma {:induction false} LayoutItemsMean(items: List<Json>, fmt: bool, depth: nat, gap: nat)
    requires items.Cons? && PrintableItems(items)
    ensures ItemValues(LayoutItems(items, fmt, depth, gap)) == items && ItemsPaired(LayoutItems(items, fmt, depth, gap))
    decreases items, 0
  {
    LayoutMeans(items.head, fmt, depth);
    if items.tail.Cons? {
      LayoutItemsMean(items.tail, fmt, depth, if fmt then 1 else 0);
    }
  }

  lemma {:induction false} LayoutMembersMean(members: List<Member>, fmt: bool, depth: nat)
    requires members.Cons? && depth > 0 && PrintableMembers(members)
    ensures EntryValues(LayoutMembers(members, fmt, depth)) == members
    ensures EntriesPaired(LayoutMembers(members, fmt, depth))
    decreases members, 0
  {
    LayoutMeans(members.head.value, fmt, depth);
    if members.tail.Cons? {
      LayoutMembersMean(members.tail, fmt, depth);
    }
  }

  // ---- a rendering is a text ------------------------------------------------------------------

  lemma {:induction false} TabsAreBlank(c: bytes, p: nat, n: nat)
    requires At(c, p, Tabs(n))
    ensures BlankAt(c, p, n)
    decreases n
  {
    if n > 0 {
      AtCons(c, p, TAB, Tabs(n - 1));
      TabsAreBlank(c, p + 1, n - 1);
      BlankCons(c, p, n - 1);
    }
  }

  lemma BlankCons(c: bytes, p: nat, n: nat)
    requires p < |c| && c[p] <= SPACE && BlankAt(c, p + 1, n)
    ensures BlankAt(c, p, n + 1)
  {
    forall k: nat | Here(k) && k < n + 1
      ensures c[p + k] <= SPACE
    {
      assert k > 0 ==> Here(k - 1);
    }
  }

  /** A newline and n tabs, or nothing. */
  lemma LineBreakIsBlank(c: bytes, p: nat, fmt: bool, n: nat)
    requires At(c, p, When(fmt, [NEWLINE])) && At(c, p + |When(fmt, [NEWLINE])|, When(fmt, Tabs(n)))
    ensures BlankAt(c, p, if fmt then 1 + n else 0)
  {
    if fmt {
      AtByte(c, p, [NEWLINE], 0);
      TabsAreBlank(c, p + 1, n);
      BlankCons(c, p, n);
    }
  }

  lemma ByteBlank(c: bytes, p: nat, fmt: bool, b: byte)
    requires At(c, p, When(fmt, [b])) && b <= SPACE
    ensures BlankAt(c, p, if fmt then 1 else 0)
  {
    if fmt {
      AtByte(c, p, [b], 0);
    }
  }

  lemma ByteAt(c: bytes, p: nat, b: byte)
    requires At(c, p, [b])
    ensures ByteIs(c, p, b)
  {
    AtByte(c, p, [b], 0);
  }

  lemma QuoteIsLiteral(c: bytes, a: nat, s: bytes)
    requires NUL !in s && At(c, a, Quote(s))
    ensures LiteralAt(c, a, s, true, |Quote(s)|)
  {
    EscapeIsALiteral(s);
    assert Quoted(UnitsOf(s)) == Quote(s);
    MeaningNeedsPairs(UnitsOf(s));
    UpToNulIsIdentity(s);
    assert SpelledAt(c, a, s, true, |Quote(s)|, UnitsOf(s));
  }

  lemma IntIsNumeral(c: bytes, a: nat, d: real)
    requires IsIntRange(d) && At(c, a, FormatInt(ToInt(d))) && Delimited(c, a + |FormatInt(ToInt(d))|)
    ensures NumeralAt(c, a, d, |FormatInt(ToInt(d))|)
  {
    var n := ToInt(d);
    FormatIntIsANumeral(n);
    assert NumeralIs(c, a, d, |FormatInt(n)|, IntNumeral(n));
  }

  /** What follows a value in a rendering is not part of it. */
  lemma LeafStands(c: bytes, a: nat, j: Json, fmt: bool, depth: nat)
    requires Printable(j) && !j.Array? && !j.Object?
    requires At(c, a, Render(j, fmt, depth)) && Delimited(c, a + |Render(j, fmt, depth)|)
    ensures WrittenAt(c, a, Layout(j, fmt, depth))
    ensures Width(Layout(j, fmt, depth)) == |Render(j, fmt, depth)|
  {
    match j {
      case Null => Keyword(c, a, NULL_TEXT);
      case False => Keyword(c, a, FALSE_TEXT);
      case True => Keyword(c, a, TRUE_TEXT);
      case Number(d) => IntIsNumeral(c, a, d);
      case String(s) => QuoteIsLiteral(c, a, s);
    }
  }

  lemma Keyword(c: bytes, a: nat, t: bytes)
    requires At(c, a, t)
    ensures t == NULL_TEXT ==> IsNullAt(c, a)
    ensures t == FALSE_TEXT ==> IsFalseAt(c, a)
    ensures t == TRUE_TEXT ==> IsTrueAt(c, a)
  {
    if t == NULL_TEXT || t == FALSE_TEXT || t == TRUE_TEXT {
      AtByte(c, a, t, 0);
      AtByte(c, a, t, 1);
      AtByte(c, a, t, 2);
      AtByte(c, a, t, 3);
      if t == FALSE_TEXT {
        AtByte(c, a, t, 4);
      }
    }
  }

  lemma {:induction false} RenderIsWritten(c: bytes, a: nat, j: Json, fmt: bool, depth: nat)
    requires Printable(j)
    requires At(c, a, Render(j, fmt, depth)) && Delimited(c, a + |Render(j, fmt, depth)|)
    ensures WrittenAt(c, a, Layout(j, fmt, depth))
    ensures Width(Layout(j, fmt, depth)) == |Render(j, fmt, depth)|
    decreases j, 2
  {
    match j {
      case Array(items) =>
        ArrayIsWritten(c, a, items, fmt, depth);
      case Object(members) =>
        ObjectIsWritten(c, a, members, fmt, depth);
      case _ =>
        LeafStands(c, a, j, fmt, depth);
    }
  }

  lemma {:induction false} ArrayIsWritten(c: bytes, a: nat, items: List<Json>, fmt: bool, depth: nat)
    requires PrintableItems(items) && At(c, a, Render(Array(items), fmt, depth))
    ensures WrittenAt(c, a, Layout(Array(items), fmt, depth))
    ensures Width(Layout(Array(items), fmt, depth)) == |Render(Array(items), fmt, depth)|
    decreases items, 1
  {
    hide At, BlankAt, RenderItems, LayoutItems, PrintableItems;
    var body := RenderItems(items, fmt, depth + 1);
    assert ByteIs(c, a, LBRACKET) && At(c, a + 1, body) && ByteIs(c, a + 1 + |body|, RBRACKET) by {
      AtConcat(c, a, [LBRACKET] + body, [RBRACKET]);
      AtConcat(c, a, [LBRACKET], body);
      ByteAt(c, a, LBRACKET);
      ByteAt(c, a + 1 + |body|, RBRACKET);
    }
    NoBlank(c, a + 1);
    if items.Cons? {
      ItemsAreWritten(c, a + 1, items, fmt, depth + 1, 0);
    } else {
      NoItems(fmt, depth + 1);
    }
  }

  lemma NoItems(fmt: bool, depth: nat)
    ensures RenderItems(Nil, fmt, depth) == []
  {
  }

  lemma NoBlank(c: bytes, p: nat)
    ensures p <= |c| ==> BlankAt(c, p, 0)
  {
  }

  /** The first item's text, and behind it the separator and the other items. */
  lemma ItemsSplit(c: bytes, a: nat, items: List<Json>, fmt: bool, depth: nat)
    requires items.Cons? && At(c, a, RenderItems(items, fmt, depth))
    ensures var v, all, gap := Render(items.head, fmt, depth), RenderItems(items, fmt, depth), if fmt then 1 else 0;
      && At(c, a, v)
      && (items.tail.Nil? ==> |all| == |v|)
      && (items.tail.Cons? ==>
            && |all| == |v| + 1 + gap + |RenderItems(items.tail, fmt, depth)|
            && ByteIs(c, a + |v|, COMMA) && BlankAt(c, a + |v| + 1, gap)
            && At(c, a + |v| + 1 + gap, RenderItems(items.tail, fmt, depth)))
  {
    hide At, BlankAt, Render;
    var v, sep, more := Render(items.head, fmt, depth), ItemSeparator(fmt, items.tail.Nil?),
                        RenderItems(items.tail, fmt, depth);
    var end := a + |v|;
    AtConcat(c, a, v + sep, more);
    AtConcat(c, a, v, sep);
    if items.tail.Cons? {
      AtConcat(c, end, [COMMA], When(fmt, [SPACE]));
      ByteAt(c, end, COMMA);
      ByteBlank(c, end + 1, fmt, SPACE);
    }
  }

  lemma {:induction false} ItemsAreWritten(c: bytes, p: nat, items: List<Json>, fmt: bool, depth: nat, gap: nat)
    requires items.Cons? && PrintableItems(items)
    requires BlankAt(c, p, gap) && At(c, p + gap, RenderItems(items, fmt, depth))
    requires ByteIs(c, p + gap + |RenderItems(items, fmt, depth)|, RBRACKET)
    ensures ItemsWritten(c, p, LayoutItems(items, fmt, depth, gap))
    ensures WidthItems(LayoutItems(items, fmt, depth, gap)) == gap + |RenderItems(items, fmt, depth)| + 1
    decreases items, 0
  {
    hide At, BlankAt, Render, RenderItems, Layout, Width, WrittenAt, Printable;
    ItemsSplit(c, p + gap, items, fmt, depth);
    var end := p + gap + |Render(items.head, fmt, depth)|;
    assert BlankAt(c, end, 0) by {
      NoBlank(c, end);
    }
    RenderIsWritten(c, p + gap, items.head, fmt, depth);
    if items.tail.Cons? {
      ItemsAreWritten(c, end + 1, items.tail, fmt, depth, if fmt then 1 else 0);
    }
  }

  /** Everything between the braces, and the braces. */
  lemma BracesSplit(c: bytes, a: nat, nl: bytes, body: bytes, tabs: bytes)
    requires At(c, a, [LBRACE] + nl + body + tabs + [RBRACE])
    ensures var line := a + 1 + |nl|;
      && ByteIs(c, a, LBRACE) && At(c, a + 1, nl) && At(c, line, body) && At(c, line + |body|, tabs)
      && ByteIs(c, line + |body| + |tabs|, RBRACE)
  {
    hide At;
    AtConcat(c, a, [LBRACE] + nl + body + tabs, [RBRACE]);
    AtConcat(c, a, [LBRACE] + nl + body, tabs);
    AtConcat(c, a, [LBRACE] + nl, body);
    AtConcat(c, a, [LBRACE], nl);
    ByteAt(c, a, LBRACE);
    ByteAt(c, a + 1 + |nl| + |body| + |tabs|, RBRACE);
  }

  lemma {:induction false} ObjectIsWritten(c: bytes, a: nat, members: List<Member>, fmt: bool, depth: nat)
    requires PrintableMembers(members) && At(c, a, Render(Object(members), fmt, depth))
    ensures WrittenAt(c, a, Layout(Object(members), fmt, depth))
    ensures Width(Layout(Object(members), fmt, depth)) == |Render(Object(members), fmt, depth)|
    decreases members, 1
  {
    hide At, BlankAt, RenderMembers, LayoutMembers, Tabs, PrintableMembers;
    var nl, body, tabs := When(fmt, [NEWLINE]), RenderMembers(members, fmt, depth + 1), When(fmt, Tabs(depth));
    var line := a + 1 + |nl|;
    BracesSplit(c, a, nl, body, tabs);
    if members.Cons? {
      MembersAreWritten(c, a + 1, members, fmt, depth + 1);
    } else {
      NoMembers(fmt, depth + 1);
      LineBreakIsBlank(c, a + 1, fmt, depth);
    }
  }

  /** The head of a member's line. */
  lemma LeadIsWritten(c: bytes, p: nat, key: bytes, fmt: bool, depth: nat)
    requires NUL !in key && At(c, p, When(fmt, [NEWLINE]))
    requires At(c, p + |When(fmt, [NEWLINE])|, MemberLead(key, fmt, depth))
    ensures BlankAt(c, p, if fmt then 1 + depth else 0)
    ensures var at := p + if fmt then 1 + depth else 0;
      && LiteralAt(c, at, key, true, |Quote(key)|) && ByteIs(c, at + |Quote(key)|, COLON)
      && BlankAt(c, at + |Quote(key)|, 0)
      && BlankAt(c, at + |Quote(key)| + 1, if fmt then 1 else 0)
    ensures |When(fmt, [NEWLINE])| + |MemberLead(key, fmt, depth)|
         == (if fmt then 1 + depth else 0) + |Quote(key)| + 1 + if fmt then 1 else 0
  {
    hide At, BlankAt, Quote, Tabs, LiteralAt;
    var tabs, quoted, tab := When(fmt, Tabs(depth)), Quote(key), When(fmt, [TAB]);
    var start := p + |When(fmt, [NEWLINE])|;
    var at := start + |tabs|;
    assert At(c, start, tabs) && At(c, at, quoted) && ByteIs(c, at + |quoted|, COLON)
           && At(c, at + |quoted| + 1, tab) by {
      AtConcat(c, start, tabs + quoted + [COLON], tab);
      AtConcat(c, start, tabs + quoted, [COLON]);
      AtConcat(c, start, tabs, quoted);
      ByteAt(c, at + |quoted|, COLON);
    }
    LineBreakIsBlank(c, p, fmt, depth);
    QuoteIsLiteral(c, at, key);
    NoBlank(c, at + |quoted|);
    ByteBlank(c, at + |quoted| + 1, fmt, TAB);
  }

  /** The first member's line, and behind it the other lines. */
  lemma MembersSplit(c: bytes, line: nat, members: List<Member>, fmt: bool, depth: nat)
    requires members.Cons? && At(c, line, RenderMembers(members, fmt, depth))
    ensures var m, rest, nl := members.head, members.tail, When(fmt, [NEWLINE]);
      var lead, v := MemberLead(m.key, fmt, depth), Render(m.value, fmt, depth);
      var end := line + |lead| + |v|;
      var sep := if rest.Nil? then 0 else 1;
      && At(c, line, lead) && At(c, line + |lead|, v)
      && (rest.Cons? ==> ByteIs(c, end, COMMA)) && At(c, end + sep, nl)
      && At(c, end + sep + |nl|, RenderMembers(rest, fmt, depth))
      && |RenderMembers(members, fmt, depth)| == |lead| + |v| + sep + |nl| + |RenderMembers(rest, fmt, depth)|
  {
    hide At, Render, MemberLead;
    var m, rest := members.head, members.tail;
    var nl, comma := When(fmt, [NEWLINE]), When(!rest.Nil?, [COMMA]);
    var lead, v, more := MemberLead(m.key, fmt, depth), Render(m.value, fmt, depth), RenderMembers(rest, fmt, depth);
    var end := line + |lead| + |v|;
    AtConcat(c, line, lead + v + (comma + nl), more);
    AtConcat(c, line, lead + v, comma + nl);
    AtConcat(c, line, lead, v);
    AtConcat(c, end, comma, nl);
    if rest.Cons? {
      ByteAt(c, end, COMMA);
    }
  }

  lemma {:induction false} MembersAreWritten(c: bytes, p: nat, members: List<Member>, fmt: bool, depth: nat)
    requires members.Cons? && depth > 0 && PrintableMembers(members)
    requires At(c, p, When(fmt, [NEWLINE]))
    requires var line, body := p + |When(fmt, [NEWLINE])|, RenderMembers(members, fmt, depth);
             var tabs := When(fmt, Tabs(depth - 1));
             && At(c, line, body) && At(c, line + |body|, tabs) && ByteIs(c, line + |body| + |tabs|, RBRACE)
    ensures EntriesWritten(c, p, LayoutMembers(members, fmt, depth))
    ensures WidthEntries(LayoutMembers(members, fmt, depth))
         == |When(fmt, [NEWLINE])| + |RenderMembers(members, fmt, depth)| + |When(fmt, Tabs(depth - 1))| + 1
    decreases members, 0
  {
    hide At, BlankAt, Render, RenderMembers, MemberLead, Layout, Width, WrittenAt, LiteralAt, Quote, Tabs, Printable;
    var m, rest := members.head, members.tail;
    var line := p + |When(fmt, [NEWLINE])|;
    var a := line + |MemberLead(m.key, fmt, depth)|;
    var end := a + |Render(m.value, fmt, depth)|;
    MembersSplit(c, line, members, fmt, depth);
    LeadIsWritten(c, p, m.key, fmt, depth);
    if rest.Cons? {
      NoBlank(c, end);
      MembersAreWritten(c, end + 1, rest, fmt, depth);
    } else {
      NoMembers(fmt, depth);
      LineBreakIsBlank(c, end, fmt, depth - 1);
      ValueEnds(c, end, fmt);
    }
    RenderIsWritten(c, a, m.value, fmt, depth);
  }

  lemma NoMembers(fmt: bool, depth: nat)
    ensures RenderMembers(Nil, fmt, depth) == []
  {
  }

  /** The last member's value is followed by a newline or the closing brace. */
  lemma ValueEnds(c: bytes, end: nat, fmt: bool)
    requires At(c, end, When(fmt, [NEWLINE]))
    requires !fmt ==> ByteIs(c, end, RBRACE)
    ensures Delimited(c, end)
  {
    if fmt {
      ByteAt(c, end, NEWLINE);
    }
  }

  // ---- the laws -------------------------------------------------------------------------------

  /** Print/parse inverse: the C string that either printer leaves is parsed to the
      very value printed, members in order and duplicate keys kept, exactly when its
      nesting stays within the limit, and with or without the demand for a terminator. */
  lemma PrintIsReadBack(j: Json, fmt: bool, requireNul: bool)
    requires Printable(j)
    ensures var text := Render(j, fmt, 0);
      && UpToNul(text + [NUL]) == text
      && ParseText(text + [NUL], requireNul) == if Nesting(j) <= 1000 then Good(j, |text|) else Bad
  {
    var text := Render(j, fmt, 0);
    var c, t := text + [NUL], Layout(j, fmt, 0);
    AtIsSlice(c, 0, text);
    assert c[0..|text|] == text;
    RenderIsWritten(c, 0, j, fmt, 0);
    LayoutMeans(j, fmt, 0);
    NoBlank(c, 0);
    assert BlankAt(c, |text|, 1);
    DocumentIsRead(c, false, 0, t, 1, requireNul);
    RenderIsNulFree(j, fmt, 0);
    UpToNulStops(text);
  }

  lemma {:induction false} UpToNulStops(s: bytes)
    requires NUL !in s
    ensures UpToNul(s + [NUL]) == s
  {
    if s != [] {
      UpToNulStops(s[1..]);
      assert (s + [NUL])[1..] == s[1..] + [NUL];
    }
  }

  /** Distinct printable values have distinct texts. */
  lemma RenderIsInjective(i: Json, j: Json, fmt: bool)
    requires Printable(i) && Printable(j) && Nesting(i) <= 1000 && Nesting(j) <= 1000
    requires Render(i, fmt, 0) == Render(j, fmt, 0)
    ensures i == j
  {
    PrintIsReadBack(i, fmt, false);
    PrintIsReadBack(j, fmt, false);
  }
}
