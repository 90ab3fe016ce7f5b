/** From bytes to tokens: the parser reads every well-formed text, and a whole document. */
module Acceptance {
  import opened Bytes
  import opened NumberCodec
  import opened StringCodec
  import opened Lists
  import opened Json
  import opened ConcreteSyntax

  lemma BlankTail(c: bytes, p: nat, n: nat)
    requires BlankAt(c, p, n) && n > 0
    ensures BlankAt(c, p + 1, n - 1)
  {
    forall k: nat | Here(k) && k < n - 1
      ensures c[p + 1 + k] <= SPACE
    {
      assert Here(k + 1);
    }
  }

  lemma {:induction false} SkipsBlank(c: bytes, p: nat, n: nat)
    requires BlankAt(c, p, n) && p + n < |c| && c[p + n] > SPACE
    ensures SkipWs(c, p) == p + n
    decreases n
  {
    if n > 0 {
      assert Here(0);
      BlankTail(c, p, n);
      SkipsBlank(c, p + 1, n - 1);
    }
  }

  /** From any byte of a run of blanks, or the byte before it, the run leads to its end. */
  lemma BlanksLead(c: bytes, p: nat, n: nat)
    requires BlankAt(c, p, n) && p + n < |c| && c[p + n] > SPACE
    ensures Leads(c, p, p + n)
    ensures Leads(c, p + n, p + n)
  {
    SkipsBlank(c, p, n);
  }

  lemma NumberIsRead(lx: Lexer, c: bytes, a: nat, d: real, width: nat)
    requires NumeralAt(c, a, d, width)
    ensures a < |c| && (c[a] == MINUS || IsDigit(c[a]))
    ensures ReadsTokens(lx) ==> lx.num(c, a) == Good(Number(d), a + width)
  {
    hide Strtod, LooseNumeral, Denoted, SpellNumeral, NumberRun;
    assert Here(0) && Token(c, a);
    var n: Numeral :| NumeralIs(c, a, d, width, n);
    NumeralIsARun(n);
    AtByte(c, a, SpellNumeral(n), 0);
    NumberRunIs(c, a, SpellNumeral(n));
    NumeralIsRead(n);
  }

  lemma StringIsRead(lx: Lexer, c: bytes, a: nat, s: bytes, paired: bool, width: nat)
    requires LiteralAt(c, a, s, paired, width)
    ensures a < |c| && c[a] == QUOTE
    ensures ReadsTokens(lx) ==> Reads(lx.str(c, a), paired, s, a + width)
  {
    hide Meaning, Paired, ValidUnits, LooseUnits, Quoted, UpToNul, ParseLiteral;
    assert Here(0) && Token(c, a);
    var units: seq<Unit> :| SpelledAt(c, a, s, paired, width, units);
    QuotedStarts(c, a, units);
    LiteralIsRead(c, a, units);
  }

  lemma QuotedStarts(c: bytes, a: nat, units: seq<Unit>)
    requires At(c, a, Quoted(units))
    ensures a < |c| && c[a] == QUOTE
  {
    AtByte(c, a, Quoted(units), 0);
  }

  lemma FirstByte(c: bytes, a: nat, t: Text)
    requires WrittenAt(c, a, t)
    ensures StartsValue(c, a)
  {
    match t {
      case NumberText(d, width) => NumberIsRead(CJSON, c, a, d, width);
      case StringText(s, paired, width) => StringIsRead(CJSON, c, a, s, paired, width);
      case _ =>
    }
  }

  lemma {:induction false} ItemsArePlaced(lx: Lexer, c: bytes, from: nat, p: nat, items: Chain<Item>)
    requires ReadsTokens(lx) && ItemsWritten(c, p, items)
    requires p <= from + 1 == p + items.item.before || from + 1 == p
    ensures ItemsPlaced(lx, c, from, p, items)
    decreases items, 0
  {
    hide BlankAt, Leads, LiteralAt, NumeralAt, ReadsTokens, StartsValue;
    var i := items.item;
    var a := p + i.before;
    var end := a + Width(i.value);
    FirstByte(c, a, i.value);
    BlanksLead(c, p, i.before);
    TextIsPlaced(lx, c, a, i.value);
    BlanksLead(c, end, i.after);
    if items.More? {
      ItemsArePlaced(lx, c, end + i.after, end + i.after + 1, items.rest);
    }
  }

  /** The head of a member after the byte at from, which is followed by blanks up to
      first: the key, then colon blanks and the colon, then lead blanks and a value. */
  lemma KeyStandsAt(lx: Lexer, c: bytes, from: nat, first: nat, key: bytes, paired: bool, width: nat,
                    colon: nat, lead: nat)
    requires from + 1 < |c| && Leads(c, from + 1, first)
    requires Reads(lx.str(c, first), paired, key, first + width)
    requires BlankAt(c, first + width, colon) && ByteIs(c, first + width + colon, COLON)
    requires BlankAt(c, first + width + colon + 1, lead)
    requires StartsValue(c, first + width + colon + 1 + lead)
    ensures ReadsTokens(lx) ==> Reads(lx.key(c, from), paired, key, first + width + colon + 1 + lead)
  {
    assert Here(0) && Token(c, from);
    SkipsBlank(c, first + width, colon);
    SkipsBlank(c, first + width + colon + 1, lead);
  }

  /** The first member's key, read from the byte in front of it or in front of its blanks. */
  lemma KeyIsRead(lx: Lexer, c: bytes, from: nat, p: nat, entries: Chain<Entry>)
    requires ReadsTokens(lx) && EntriesWritten(c, p, entries)
    requires p <= from + 1 == p + entries.item.before || from + 1 == p
    ensures var e := entries.item;
      Reads(lx.key(c, from), e.paired, e.key, p + e.before + e.width + e.colon + 1 + e.lead)
    ensures ByteIs(c, p + entries.item.before, QUOTE)
  {
    hide BlankAt, Leads, LiteralAt, NumeralAt, ReadsTokens, Reads;
    var e := entries.item;
    var first := p + e.before;
    var a := first + e.width + e.colon + 1 + e.lead;
    assert StartsValue(c, a) by {
      FirstByte(c, a, e.value);
    }
    assert Reads(lx.str(c, first), e.paired, e.key, first + e.width) && ByteIs(c, first, QUOTE) by {
      StringIsRead(lx, c, first, e.key, e.paired, e.width);
    }
    BlanksLead(c, p, e.before);
    KeyStandsAt(lx, c, from, first, e.key, e.paired, e.width, e.colon, e.lead);
  }

  lemma {:induction false} EntriesArePlaced(lx: Lexer, c: bytes, from: nat, p: nat, entries: Chain<Entry>)
    requires ReadsTokens(lx) && EntriesWritten(c, p, entries)
    requires p <= from + 1 == p + entries.item.before || from + 1 == p
    ensures EntriesPlaced(lx, c, from, p, entries)
    ensures ByteIs(c, p + entries.item.before, QUOTE)
    decreases entries, 0
  {
    hide BlankAt, Leads, LiteralAt, NumeralAt, ReadsTokens, StartsValue, Placed, WrittenAt, Width, KeyAfter, SkipWs;
    var e := entries.item;
    var a := p + e.before + e.width + e.colon + 1 + e.lead;
    var end := a + Width(e.value);
    KeyIsRead(lx, c, from, p, entries);
    TextIsPlaced(lx, c, a, e.value);
    BlanksLead(c, end, e.after);
    if entries.More? {
      EntriesArePlaced(lx, c, end + e.after, end + e.after + 1, entries.rest);
    }
  }

  /** The tokens of a written text are where the loops look for them. */
  lemma {:induction false} TextIsPlaced(lx: Lexer, c: bytes, a: nat, t: Text)
    requires ReadsTokens(lx) && WrittenAt(c, a, t)
    ensures Placed(lx, c, a, t)
    decreases t, 1
  {
    hide BlankAt, Leads, LiteralAt, NumeralAt, ReadsTokens;
    FirstByte(c, a, t);
    match t {
      case NumberText(d, width) =>
        NumberIsRead(lx, c, a, d, width);
      case StringText(s, paired, width) =>
        StringIsRead(lx, c, a, s, paired, width);
      case EmptyArray(lead) =>
        BlanksLead(c, a + 1, lead);
      case ArrayText(items) =>
        var first := a + 1 + items.item.before;
        FirstByte(c, first, items.item.value);
        BlanksLead(c, a + 1, items.item.before);
        ItemsArePlaced(lx, c, first - 1, a + 1, items);
      case EmptyObject(lead) =>
        BlanksLead(c, a + 1, lead);
      case ObjectText(entries) =>
        var first := a + 1 + entries.item.before;
        EntriesArePlaced(lx, c, first - 1, a + 1, entries);
        BlanksLead(c, a + 1, entries.item.before);
      case _ =>
    }
  }

  // ---- the law ---------------------------------------------------------------------------

  /** A written text is read as its value if its arrays and objects nest at most 1000 deep
      and no surrogate stands alone in its strings, and rejected otherwise. */
  lemma TextIsRead(lx: Lexer, c: bytes, a: nat, t: Text, depth: nat)
    requires ReadsTokens(lx) && WrittenAt(c, a, t) && depth <= NESTING_LIMIT
    ensures StartsValue(c, a)
    ensures ValueAt(lx, c, a, depth)
         == if depth + Nesting(Value(t)) <= 1000 && AllPaired(t) then Good(Value(t), a + Width(t)) else Bad
  {
    FirstByte(c, a, t);
    TextIsPlaced(lx, c, a, t);
    PlacedIsRead(lx, c, a, t, depth);
  }

  const BOM: bytes := [0xEF, 0xBB, 0xBF]

  /** The buffer c is a text with blanks around it, behind a byte order mark or none. A
      terminator is a blank: one more blank at the end, if there is one. */
  ghost predicate IsDocument(c: bytes, marked: bool, lead: nat, t: Text, trail: nat) {
    var start := if marked then 3 else 0;
    && (marked ==> At(c, 0, BOM))
    && BlankAt(c, start, lead) && WrittenAt(c, start + lead, t)
    && BlankAt(c, start + lead + Width(t), trail) && |c| == start + lead + Width(t) + trail
  }

  /** The whole of cJSON_ParseWithLengthOpts, for buffers with a terminator and without: a
      document is accepted as a text is, except that a byte order mark needs
      two more bytes to be recognised, and that require_null_terminated needs a NUL at
      the end. */
  lemma DocumentIsRead(c: bytes, marked: bool, lead: nat, t: Text, trail: nat, requireNul: bool)
    requires IsDocument(c, marked, lead, t, trail)
    ensures var next := (if marked then 3 else 0) + lead + Width(t);
      var ended := trail > 0 && c[|c| - 1] == NUL;
      ParseText(c, requireNul)
      == if Nesting(Value(t)) <= 1000 && AllPaired(t) && (marked ==> |c| > 4) && (requireNul ==> ended)
         then Good(Value(t), if requireNul then |c| - 1 else next)
         else Bad
  {
    hide BlankAt, WrittenAt, ReadsTokens, ValueAt, SkipWs, SkipBom, Value, Width, Nesting, AllPaired;
    var a := (if marked then 3 else 0) + lead;
    FirstByte(c, a, t);
    if marked && |c| <= 4 {
      UnseenMark(c);
    } else {
      SkipsBlank(c, a - lead, lead);
      FindsMark(c, marked, lead, t);
      CjsonReadsTokens();
      TextIsRead(CJSON, c, a, t, 0);
      SkipsToEnd(c, a + Width(t), trail);
    }
  }

  /** A mark with fewer than two bytes behind it is taken for text. */
  lemma UnseenMark(c: bytes)
    requires At(c, 0, BOM) && |c| <= 4
    ensures forall requireNul :: ParseText(c, requireNul) == Bad
  {
    AtByte(c, 0, BOM, 0);
  }

  lemma FindsMark(c: bytes, marked: bool, lead: nat, t: Text)
    requires if marked then At(c, 0, BOM) && |c| > 4 else BlankAt(c, 0, lead) && WrittenAt(c, lead, t)
    ensures SkipBom(c) == if marked then 3 else 0
  {
    if marked {
      AtByte(c, 0, BOM, 0);
      AtByte(c, 0, BOM, 1);
      AtByte(c, 0, BOM, 2);
    } else if lead > 0 {
      assert Here(0);
    } else {
      match t {
        case NumberText(d, width) => NumberIsRead(CJSON, c, 0, d, width);
        case StringText(s, paired, width) => StringIsRead(CJSON, c, 0, s, paired, width);
        case _ =>
      }
    }
  }

  /** Trailing blanks run into the end of the buffer, and the skip steps back onto the
      last of them. */
  lemma {:induction false} SkipsToEnd(c: bytes, p: nat, n: nat)
    requires BlankAt(c, p, n) && p + n == |c|
    ensures SkipWs(c, p) == if n == 0 then p else |c| - 1
    decreases n
  {
    if n > 0 {
      assert Here(0);
      BlankTail(c, p, n);
      SkipsToEnd(c, p + 1, n - 1);
    }
  }
}
