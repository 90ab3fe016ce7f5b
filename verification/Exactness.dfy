/** The converse of acceptance: whatever the parser reads is a text, tokens included. */
module Exactness {
  import opened Bytes
  import opened NumberCodec
  import opened StringCodec
  import opened Lists
  import opened Json
  import opened ConcreteSyntax

  // ---- tokens --------------------------------------------------------------------------------

  /** A number is read from a decimal literal, and from no more than the source allows at
      the start of a value: a minus or a digit. */
  lemma NumberIsANumeral(c: bytes, a: nat) returns (n: Numeral)
    requires a < |c| && (c[a] == MINUS || IsDigit(c[a])) && NumberAt(c, a).Good?
    ensures LooseNumeral(n) && At(c, a, SpellNumeral(n))
    ensures NumberAt(c, a) == Good(Number(Denoted(n)), a + |SpellNumeral(n)|)
  {
    hide Strtod, LooseNumeral, Denoted, SpellNumeral;
    var run := NumberRun(c, a);
    NumberRunIsSlice(c, a);
    var used := Strtod(run).used;
    assert run[0] == c[a];
    n := ReadIsANumeral(run);
    assert c[a..a + used] == run[..used];
    AtIsSlice(c, a, SpellNumeral(n));
  }

  /** A string is read from units between quotes. In step, that is a literal of the grammar
      but for digits behind \u and bare control characters; out of step, the last unit may
      end on the closing quote. */
  lemma StringIsUnits(c: bytes, a: nat) returns (us: seq<Unit>)
    requires a < |c| && StringAt(c, a).Good?
    ensures c[a] == QUOTE && At(c, a + 1, Spell(us)) && LooseUnits(us) && Meaning(us).Some?
    ensures StringAt(c, a).value == UpToNul(Meaning(us).value)
    ensures var next := StringAt(c, a).next;
      c[next - 1] == QUOTE && next - 1 <= a + 1 + |Spell(us)| <= next
  {
    hide Unescape, Spell, Meaning, LooseUnits, At;
    us := UnescapedIsUnits(c, a + 1, Scan(c, a + 1).value.close);
  }

  // ---- structure -----------------------------------------------------------------------------

  /** Skipping twice is skipping once. */
  lemma {:induction false} SkippedIsSkipped(c: bytes, p: nat)
    requires p <= |c|
    ensures SkipWs(c, SkipWs(c, p)) == SkipWs(c, p)
    decreases |c| - p
  {
    if p < |c| && c[p] <= SPACE && p + 1 < |c| {
      SkippedIsSkipped(c, p + 1);
    }
  }

  lemma StartsAccepted(lx: Lexer, c: bytes, a: nat, depth: nat)
    requires a <= |c| && ValueAt(lx, c, a, depth).Good?
    ensures StartsValue(c, a)
  {
  }

  /** A leaf, as the lexer reads it. */
  lemma LeafIsPlaced(lx: Lexer, c: bytes, a: nat, depth: nat) returns (t: Text)
    requires ReadsTokens(lx) && a <= |c| && ValueAt(lx, c, a, depth).Good?
    requires a < |c| && c[a] != LBRACKET && c[a] != LBRACE
    ensures Placed(lx, c, a, t) && AllPaired(t)
    ensures ValueAt(lx, c, a, depth) == Good(Value(t), a + Width(t))
  {
    hide SkipWs, StringAt, Strtod;
    assert Token(c, a);
    var r := ValueAt(lx, c, a, depth);
    StartsAccepted(lx, c, a, depth);
    if r.value == Null {
      t := NullText;
    } else if r.value == False {
      t := FalseText;
    } else if r.value == True {
      t := TrueText;
    } else if c[a] == QUOTE {
      t := StringText(r.value.s, true, r.next - a);
    } else {
      t := NumberText(r.value.d, r.next - a);
    }
  }

  lemma {:induction false} AcceptedIsPlaced(lx: Lexer, c: bytes, a: nat, depth: nat) returns (t: Text)
    requires ReadsTokens(lx) && a <= |c| && ValueAt(lx, c, a, depth).Good?
    ensures Placed(lx, c, a, t) && AllPaired(t)
    ensures ValueAt(lx, c, a, depth) == Good(Value(t), a + Width(t))
    decreases |c| - a, 2
  {
    hide ReadsTokens, SkipWs, ItemsAfter, MembersAfter, ItemsPlaced, EntriesPlaced, Leads;
    StartsAccepted(lx, c, a, depth);
    if c[a] != LBRACKET && c[a] != LBRACE {
      t := LeafIsPlaced(lx, c, a, depth);
    } else {
      var first := SkipWs(c, a + 1);
      SkippedIsSkipped(c, a + 1);
      LeadsThere(c, a + 1);
      if c[a] == LBRACKET {
        if ByteIs(c, first, RBRACKET) {
          t := EmptyArray(first - a - 1);
        } else {
          var items := ItemsAreAccepted(lx, c, first - 1, a + 1, depth + 1);
          t := ArrayText(items);
        }
      } else {
        if ByteIs(c, first, RBRACE) {
          t := EmptyObject(first - a - 1);
        } else {
          var entries := EntriesAreAccepted(lx, c, first - 1, a + 1, depth + 1);
          t := ObjectText(entries);
        }
      }
    }
  }

  lemma LeadsThere(c: bytes, p: nat)
    requires p <= |c|
    ensures Leads(c, p, SkipWs(c, p))
  {
  }

  /** The elements after the byte at from, with their first blank at p. */
  lemma {:induction false} ItemsAreAccepted(lx: Lexer, c: bytes, from: nat, p: nat, depth: nat)
    returns (items: Chain<Item>)
    requires ReadsTokens(lx) && from < |c| && p <= SkipWs(c, from + 1) && ItemsAfter(lx, c, from, depth).Good?
    ensures ItemsPlaced(lx, c, from, p, items) && ItemsPaired(items)
    ensures ItemsAfter(lx, c, from, depth) == Good(ItemValues(items), p + WidthItems(items))
    ensures p + items.item.before == SkipWs(c, from + 1) && StartsValue(c, p + items.item.before)
    decreases |c| - from, 1
  {
    hide ReadsTokens, SkipWs, Leads, ValueAt, Placed, Value, Width, AllPaired;
    var a := SkipWs(c, from + 1);
    var t := AcceptedIsPlaced(lx, c, a, depth);
    var end := a + Width(t);
    var sep := SkipWs(c, end);
    var i := Item(a - p, t, sep - end);
    StartsAccepted(lx, c, a, depth);
    LeadsThere(c, from + 1);
    LeadsThere(c, end);
    if ByteIs(c, sep, COMMA) {
      var rest := ItemsAreAccepted(lx, c, sep, sep + 1, depth);
      items := More(i, rest);
    } else {
      items := Last(i);
    }
  }

  /** A key, the colon and the blanks around it. */
  lemma KeyParts(lx: Lexer, c: bytes, from: nat) returns (width: nat, colon: nat, lead: nat)
    requires ReadsTokens(lx) && from < |c| && lx.key(c, from).Good?
    ensures from + 1 < |c| && ByteIs(c, SkipWs(c, from + 1), QUOTE)
    ensures lx.key(c, from).next == SkipWs(c, from + 1) + width + colon + 1 + lead
  {
    hide SkipWs, Scan, Unescape;
    assert Token(c, from);
    var first := SkipWs(c, from + 1);
    assert Token(c, first);
    width := lx.str(c, first).next - first;
    colon := SkipWs(c, first + width) - first - width;
    lead := lx.key(c, from).next - first - width - colon - 1;
  }

  lemma {:induction false} EntriesAreAccepted(lx: Lexer, c: bytes, from: nat, p: nat, depth: nat)
    returns (entries: Chain<Entry>)
    requires ReadsTokens(lx) && from < |c| && p <= |c| && MembersAfter(lx, c, from, depth).Good?
    requires from + 1 <= |c| && p <= SkipWs(c, from + 1)
    ensures EntriesPlaced(lx, c, from, p, entries) && EntriesPaired(entries)
    ensures MembersAfter(lx, c, from, depth) == Good(EntryValues(entries), p + WidthEntries(entries))
    ensures p + entries.item.before == SkipWs(c, from + 1) && StartsValue(c, p + entries.item.before)
    decreases |c| - from, 1
  {
    hide ReadsTokens, SkipWs, Leads, ValueAt, Placed, Value, Width, AllPaired;
    var first := SkipWs(c, from + 1);
    var key, a := lx.key(c, from).value, lx.key(c, from).next;
    var width, colon, lead := KeyParts(lx, c, from);
    var t := AcceptedIsPlaced(lx, c, a, depth);
    var end := a + Width(t);
    var sep := SkipWs(c, end);
    var e := Entry(first - p, key, true, width, colon, lead, t, sep - end);
    LeadsThere(c, end);
    if ByteIs(c, sep, COMMA) {
      var rest := EntriesAreAccepted(lx, c, sep, sep + 1, depth);
      entries := More(e, rest);
    } else {
      entries := Last(e);
    }
  }

  // ---- the law in both directions -------------------------------------------------------------

  /** Exactly the texts whose tokens the lexer reads, whose separators stand where the
      loops look for them, whose strings are decoded and whose nesting is within the limit
      are accepted, and each as its own value. */
  lemma AcceptedExactly(c: bytes, a: nat, depth: nat, v: Json, end: nat)
    requires a <= |c| && depth <= 1000
    ensures ValueAt(CJSON, c, a, depth) == Good(v, end)
       <==> exists t: Text :: Placed(CJSON, c, a, t) && AllPaired(t) && Value(t) == v && a + Width(t) == end
                              && depth + Nesting(v) <= 1000
  {
    hide Placed, AllPaired, Value, Width, Nesting, ValueAt;
    CjsonReadsTokens();
    if ValueAt(CJSON, c, a, depth) == Good(v, end) {
      var t := AcceptedIsPlaced(CJSON, c, a, depth);
      PlacedIsRead(CJSON, c, a, t, depth);
    }
    forall t: Text | Placed(CJSON, c, a, t) && AllPaired(t) && Value(t) == v && a + Width(t) == end
                     && depth + Nesting(v) <= 1000
      ensures ValueAt(CJSON, c, a, depth) == Good(v, end)
    {
      PlacedIsRead(CJSON, c, a, t, depth);
    }
  }
}
