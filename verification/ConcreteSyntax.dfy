/** Every way to write a JSON value: any blanks between tokens, any spelling of
    string characters and of numbers. The parser reads each of them as its value, exactly
    up to the nesting limit and unless a surrogate stands alone in a string. */
module ConcreteSyntax {
  import opened Bytes
  import opened NumberCodec
  import opened StringCodec
  import opened Lists
  import opened Json

  /** A syntax tree that keeps how many bytes each token takes, and how many blanks
      stand between tokens. A string whose surrogates are not all paired denotes no bytes;
      then s is arbitrary. */
  datatype Text =
    | NullText
    | FalseText
    | TrueText
    | NumberText(d: real, width: nat)
    | StringText(s: bytes, paired: bool, width: nat)
    | EmptyArray(lead: nat)
    | ArrayText(items: Chain<Item>)
    | EmptyObject(lead: nat)
    | ObjectText(entries: Chain<Entry>)

  datatype Item = Item(before: nat, value: Text, after: nat)

  datatype Entry = Entry(before: nat, key: bytes, paired: bool, width: nat, colon: nat, lead: nat, value: Text,
                         after: nat)

  /** The value of a text. */
  function Value(t: Text): Json
    decreases t, 1
  {
    match t
    case NullText => Null
    case FalseText => False
    case TrueText => True
    case NumberText(d, _) => Number(d)
    case StringText(s, _, _) => String(s)
    case EmptyArray(_) => Array(Nil)
    case ArrayText(items) => Array(ItemValues(items))
    case EmptyObject(_) => Object(Nil)
    case ObjectText(entries) => Object(EntryValues(entries))
  }

  function ItemValues(items: Chain<Item>): List<Json>
    decreases items, 0
  {
    Cons(Value(items.item.value), if items.Last? then Nil else ItemValues(items.rest))
  }

  function EntryValues(entries: Chain<Entry>): List<Member>
    decreases entries, 0
  {
    Cons(Member(entries.item.key, Value(entries.item.value)),
         if entries.Last? then Nil else EntryValues(entries.rest))
  }

  /** The number of bytes of a text. */
  function Width(t: Text): nat
    decreases t, 1
  {
    match t
    case NumberText(_, width) => width
    case StringText(_, _, width) => width
    case EmptyArray(lead) => lead + 2
    case ArrayText(items) => 1 + WidthItems(items)
    case EmptyObject(lead) => lead + 2
    case ObjectText(entries) => 1 + WidthEntries(entries)
    case FalseText => 5
    case _ => 4
  }

  function WidthItems(items: Chain<Item>): nat
    decreases items, 0
  {
    var i := items.item;
    i.before + Width(i.value) + i.after + 1 + if items.Last? then 0 else WidthItems(items.rest)
  }

  function WidthEntries(entries: Chain<Entry>): nat
    decreases entries, 0
  {
    var e := entries.item;
    e.before + e.width + e.colon + 1 + e.lead + Width(e.value) + e.after + 1
    + if entries.Last? then 0 else WidthEntries(entries.rest)
  }

  /** No surrogate stands alone in any string or key of the text. */
  predicate AllPaired(t: Text)
    decreases t, 1
  {
    match t
    case StringText(_, paired, _) => paired
    case ArrayText(items) => ItemsPaired(items)
    case ObjectText(entries) => EntriesPaired(entries)
    case _ => true
  }

  predicate ItemsPaired(items: Chain<Item>)
    decreases items, 0
  {
    AllPaired(items.item.value) && (items.More? ==> ItemsPaired(items.rest))
  }

  predicate EntriesPaired(entries: Chain<Entry>)
    decreases entries, 0
  {
    entries.item.paired && AllPaired(entries.item.value) && (entries.More? ==> EntriesPaired(entries.rest))
  }

  // ---- where a text stands -----------------------------------------------------------------

  /** n bytes up to 32 stand at p. Looked up with Here, like At. */
  ghost predicate BlankAt(c: bytes, p: nat, n: nat) {
    p + n <= |c| && forall k: nat {:trigger Here(k)} :: Here(k) && k < n ==> c[p + k] <= SPACE
  }

  /** Nothing that could belong to a number follows. */
  predicate Delimited(c: bytes, end: nat) {
    end < |c| ==> !IsNumberChar(c[end])
  }

  /** The units stand between quotes, in width bytes at a. If their surrogates are paired,
      they spell a C string: s, which a decoded NUL cuts short. */
  ghost predicate SpelledAt(c: bytes, a: nat, s: bytes, paired: bool, width: nat, units: seq<Unit>) {
    && ValidUnits(units) && LooseUnits(units) && width == |Quoted(units)| && At(c, a, Quoted(units))
    && (paired <==> Paired(units))
    && (paired ==> Meaning(units).Some? && s == UpToNul(Meaning(units).value))
  }

  /** A literal that means s, if it is paired, takes the width bytes at a. As in At, the
      trigger keeps the literal out of proofs about what surrounds it. */
  ghost predicate LiteralAt(c: bytes, a: nat, s: bytes, paired: bool, width: nat) {
    forall k: nat {:trigger Here(k)} :: Here(k) ==>
      exists units: seq<Unit> {:trigger SpelledAt(c, a, s, paired, width, units)} ::
        SpelledAt(c, a, s, paired, width, units)
  }

  /** The numeral n denotes d, in width bytes at a. */
  ghost predicate NumeralIs(c: bytes, a: nat, d: real, width: nat, n: Numeral) {
    && ValidNumeral(n) && d == Denoted(n)
    && width == |SpellNumeral(n)| && At(c, a, SpellNumeral(n)) && Delimited(c, a + width)
  }

  /** A numeral that denotes d, in any spelling, takes the width bytes at a. */
  ghost predicate NumeralAt(c: bytes, a: nat, d: real, width: nat) {
    forall k: nat {:trigger Here(k)} :: Here(k) ==>
      exists n: Numeral {:trigger NumeralIs(c, a, d, width, n)} :: NumeralIs(c, a, d, width, n)
  }

  /** The tokens of t, in order and with its blanks between them, stand in c from a on. */
  ghost predicate WrittenAt(c: bytes, a: nat, t: Text)
    decreases t, 1
  {
    match t
    case NullText => IsNullAt(c, a)
    case FalseText => IsFalseAt(c, a)
    case TrueText => IsTrueAt(c, a)
    case NumberText(d, width) => NumeralAt(c, a, d, width)
    case StringText(s, paired, width) => LiteralAt(c, a, s, paired, width)
    case EmptyArray(lead) => ByteIs(c, a, LBRACKET) && BlankAt(c, a + 1, lead) && ByteIs(c, a + 1 + lead, RBRACKET)
    case ArrayText(items) => ByteIs(c, a, LBRACKET) && ItemsWritten(c, a + 1, items)
    case EmptyObject(lead) => ByteIs(c, a, LBRACE) && BlankAt(c, a + 1, lead) && ByteIs(c, a + 1 + lead, RBRACE)
    case ObjectText(entries) => ByteIs(c, a, LBRACE) && EntriesWritten(c, a + 1, entries)
  }

  ghost predicate ItemsWritten(c: bytes, p: nat, items: Chain<Item>)
    decreases items, 0
  {
    var i := items.item;
    var end := p + i.before + Width(i.value);
    && BlankAt(c, p, i.before) && WrittenAt(c, p + i.before, i.value)
    && BlankAt(c, end, i.after)
    && ByteIs(c, end + i.after, if items.Last? then RBRACKET else COMMA)
    && (items.More? ==> ItemsWritten(c, end + i.after + 1, items.rest))
  }

  ghost predicate EntriesWritten(c: bytes, p: nat, entries: Chain<Entry>)
    decreases entries, 0
  {
    var e := entries.item;
    var next := p + e.before + e.width;
    var at := next + e.colon + 1;
    var end := at + e.lead + Width(e.value);
    && BlankAt(c, p, e.before) && LiteralAt(c, p + e.before, e.key, e.paired, e.width)
    && BlankAt(c, next, e.colon) && ByteIs(c, next + e.colon, COLON)
    && BlankAt(c, at, e.lead) && WrittenAt(c, at + e.lead, e.value)
    && BlankAt(c, end, e.after)
    && ByteIs(c, end + e.after, if entries.Last? then RBRACE else COMMA)
    && (entries.More? ==> EntriesWritten(c, end + e.after + 1, entries.rest))
  }

  // ---- where the parser's loops look for tokens -------------------------------------------

  /** Skipping blanks from p leads to a. Looked up with Here, like At. */
  ghost predicate Leads(c: bytes, p: nat, a: nat) {
    forall k: nat {:trigger Here(k)} :: Here(k) ==> p <= |c| && SkipWs(c, p) == a
  }

  /** Behind the n blanks at p stands the byte b. */
  ghost predicate Blanked(c: bytes, p: nat, n: nat, b: byte) {
    Leads(c, p, p + n) && ByteIs(c, p + n, b)
  }

  /** p is the reading of v up to end if good, else a failure. */
  predicate Reads<T(==)>(p: Parsed<T>, good: bool, v: T, end: nat) {
    p == if good then Good(v, end) else Bad
  }

  predicate StartsValue(c: bytes, a: nat) {
    a < |c| && c[a] > SPACE && c[a] != RBRACKET && c[a] != RBRACE
  }

  /** The tokens of t stand in c from a on: leaves are read as they should be, and
      the separators of lists stand where the loops look for them. */
  ghost predicate Placed(lx: Lexer, c: bytes, a: nat, t: Text)
    decreases t, 1
  {
    StartsValue(c, a)
    && match t
       case NullText => IsNullAt(c, a)
       case FalseText => IsFalseAt(c, a)
       case TrueText => IsTrueAt(c, a)
       case NumberText(d, _) =>
         (c[a] == MINUS || IsDigit(c[a])) && lx.num(c, a) == Good(Number(d), a + Width(t))
       case StringText(s, paired, _) =>
         c[a] == QUOTE && Reads(lx.str(c, a), paired, s, a + Width(t))
       case EmptyArray(lead) => c[a] == LBRACKET && Blanked(c, a + 1, lead, RBRACKET)
       case ArrayText(items) =>
         c[a] == LBRACKET && ItemsPlaced(lx, c, a + items.item.before, a + 1, items)
         && Leads(c, a + 1, a + 1 + items.item.before) && StartsValue(c, a + 1 + items.item.before)
       case EmptyObject(lead) => c[a] == LBRACE && Blanked(c, a + 1, lead, RBRACE)
       case ObjectText(entries) =>
         c[a] == LBRACE && EntriesPlaced(lx, c, a + entries.item.before, a + 1, entries)
         && Leads(c, a + 1, a + 1 + entries.item.before) && StartsValue(c, a + 1 + entries.item.before)
  }

  /** Items after the byte at from; p is where the bytes of the first one start. */
  ghost predicate ItemsPlaced(lx: Lexer, c: bytes, from: nat, p: nat, items: Chain<Item>)
    decreases items, 0
  {
    var i := items.item;
    var a := p + i.before;
    var end := a + Width(i.value);
    && Leads(c, from + 1, a) && Placed(lx, c, a, i.value)
    && match items
       case Last(_) => Blanked(c, end, i.after, RBRACKET)
       case More(_, rest) =>
         Blanked(c, end, i.after, COMMA)
         && ItemsPlaced(lx, c, end + i.after, end + i.after + 1, rest)
  }

  ghost predicate EntriesPlaced(lx: Lexer, c: bytes, from: nat, p: nat, entries: Chain<Entry>)
    decreases entries, 0
  {
    var e := entries.item;
    var a := p + e.before + e.width + e.colon + 1 + e.lead;
    var end := a + Width(e.value);
    && Reads(lx.key(c, from), e.paired, e.key, a)
    && Placed(lx, c, a, e.value)
    && match entries
       case Last(_) => Blanked(c, end, e.after, RBRACE)
       case More(_, rest) =>
         Blanked(c, end, e.after, COMMA)
         && EntriesPlaced(lx, c, end + e.after, end + e.after + 1, rest)
  }

  // ---- the parser reads placed tokens ---------------------------------------------------------

  lemma FitLast(v: Json, depth: nat)
    ensures FitItems(Cons(v, Nil), depth) == Fits(v, depth)
  {
    assert NestingItems(Nil) == 0;
  }

  lemma FitLastMember(m: Member, depth: nat)
    ensures FitMembers(Cons(m, Nil), depth) == Fits(m.value, depth)
  {
    assert NestingMembers(Nil) == 0;
  }

  /** One turn of the loop of parse_array: n blanks after the value, then a separator. */
  lemma ItemsTurn(lx: Lexer, c: bytes, from: nat, depth: nat, at: nat, end: nat, n: nat,
                  fits: bool, v: Json, fitsRest: bool, rest: List<Json>, stop: nat)
    requires from < |c| && at <= |c| && Leads(c, from + 1, at)
    requires Reads(ValueAt(lx, c, at, depth), fits, v, end)
    requires || (Blanked(c, end, n, RBRACKET) && rest == Nil && fitsRest && stop == end + n + 1)
             || (Blanked(c, end, n, COMMA) && Reads(ItemsAfter(lx, c, end + n, depth), fitsRest, rest, stop))
    ensures Reads(ItemsAfter(lx, c, from, depth), fits && fitsRest, Cons(v, rest), stop)
  {
    assert Here(0);
  }

  /** One turn of the loop of parse_object. */
  lemma MembersTurn(lx: Lexer, c: bytes, from: nat, depth: nat, m: Member, paired: bool, at: nat, end: nat, n: nat,
                    fits: bool, fitsRest: bool, rest: List<Member>, stop: nat)
    requires from < |c| && at <= |c| && Reads(lx.key(c, from), paired, m.key, at)
    requires Reads(ValueAt(lx, c, at, depth), fits, m.value, end)
    requires || (Blanked(c, end, n, RBRACE) && rest == Nil && fitsRest && stop == end + n + 1)
             || (Blanked(c, end, n, COMMA) && Reads(MembersAfter(lx, c, end + n, depth), fitsRest, rest, stop))
    ensures Reads(MembersAfter(lx, c, from, depth), paired && fits && fitsRest, Cons(m, rest), stop)
  {
    assert Here(0);
  }

  /** parse_array around its loop. */
  lemma ArrayTurn(lx: Lexer, c: bytes, a: nat, depth: nat, first: nat,
                                     fits: bool, items: List<Json>, stop: nat)
    requires a < first < |c| && Leads(c, a + 1, first) && c[first] != RBRACKET && depth < NESTING_LIMIT
    requires Reads(ItemsAfter(lx, c, first - 1, depth + 1), fits, items, stop)
    ensures Reads(ArrayAt(lx, c, a, depth), fits, Array(items), stop)
  {
    assert Here(0);
  }

  /** parse_object around its loop. */
  lemma ObjectTurn(lx: Lexer, c: bytes, a: nat, depth: nat, first: nat,
                                      fits: bool, members: List<Member>, stop: nat)
    requires a < first < |c| && Leads(c, a + 1, first) && c[first] != RBRACE && depth < NESTING_LIMIT
    requires Reads(MembersAfter(lx, c, first - 1, depth + 1), fits, members, stop)
    ensures Reads(ObjectAt(lx, c, a, depth), fits, Object(members), stop)
  {
    assert Here(0);
  }

  lemma EmptyArrayIsRead(lx: Lexer, c: bytes, a: nat, lead: nat, depth: nat)
    requires a < |c| && Blanked(c, a + 1, lead, RBRACKET)
    ensures Reads(ArrayAt(lx, c, a, depth), depth < NESTING_LIMIT, Array(Nil), a + lead + 2)
  {
    assert Here(0);
  }

  lemma EmptyObjectIsRead(lx: Lexer, c: bytes, a: nat, lead: nat, depth: nat)
    requires a < |c| && Blanked(c, a + 1, lead, RBRACE)
    ensures Reads(ObjectAt(lx, c, a, depth), depth < NESTING_LIMIT, Object(Nil), a + lead + 2)
  {
    assert Here(0);
  }

  lemma {:induction false} PlacedIsRead(lx: Lexer, c: bytes, a: nat, t: Text, depth: nat)
    requires Placed(lx, c, a, t) && depth <= NESTING_LIMIT
    ensures Reads(ValueAt(lx, c, a, depth), Fits(Value(t), depth) && AllPaired(t), Value(t), a + Width(t))
    decreases t, 1
  {
    hide Leads, SkipWs, ItemsAfter, MembersAfter, ItemsPlaced, EntriesPlaced, WidthItems, WidthEntries,
         ItemValues, EntryValues, ItemsPaired, EntriesPaired;
    match t {
      case ArrayText(items) =>
        if depth < NESTING_LIMIT {
          var first, vs := a + 1 + items.item.before, ItemValues(items);
          ItemsAreRead(lx, c, first - 1, a + 1, items, depth + 1);
          ArrayTurn(lx, c, a, depth, first, FitItems(vs, depth + 1) && ItemsPaired(items), vs, a + Width(t));
        }
      case ObjectText(entries) =>
        if depth < NESTING_LIMIT {
          var first, ms := a + 1 + entries.item.before, EntryValues(entries);
          EntriesAreRead(lx, c, first - 1, a + 1, entries, depth + 1);
          ObjectTurn(lx, c, a, depth, first, FitMembers(ms, depth + 1) && EntriesPaired(entries), ms, a + Width(t));
        }
      case EmptyArray(lead) =>
        EmptyArrayIsRead(lx, c, a, lead, depth);
      case EmptyObject(lead) =>
        EmptyObjectIsRead(lx, c, a, lead, depth);
      case _ =>
    }
  }

  /** The loop is entered on the byte in front of the first value: the open bracket
      or the last blank after it, or a comma. */
  lemma {:induction false} ItemsAreRead(lx: Lexer, c: bytes, from: nat, p: nat, items: Chain<Item>, depth: nat)
    requires ItemsPlaced(lx, c, from, p, items)
    requires depth <= NESTING_LIMIT && from < |c|
    ensures Reads(ItemsAfter(lx, c, from, depth), FitItems(ItemValues(items), depth) && ItemsPaired(items),
                  ItemValues(items), p + WidthItems(items))
    decreases items, 0
  {
    hide Leads, SkipWs, ItemsAfter, ValueAt, Value, Width, Nesting, AllPaired;
    var i, stop := items.item, p + WidthItems(items);
    var v, at := Value(i.value), p + i.before;
    var end := at + Width(i.value);
    var good := Fits(v, depth) && AllPaired(i.value);
    PlacedIsRead(lx, c, at, i.value, depth);
    match items {
      case Last(_) =>
        FitLast(v, depth);
        ItemsTurn(lx, c, from, depth, at, end, i.after, good, v, true, Nil, stop);
      case More(_, items') =>
        var sep, rest := end + i.after, ItemValues(items');
        ItemsAreRead(lx, c, sep, sep + 1, items', depth);
        ItemsTurn(lx, c, from, depth, at, end, i.after, good, v,
                  FitItems(rest, depth) && ItemsPaired(items'), rest, stop);
    }
  }

  lemma {:induction false} EntriesAreRead(lx: Lexer, c: bytes, from: nat, p: nat, entries: Chain<Entry>,
                                          depth: nat)
    requires EntriesPlaced(lx, c, from, p, entries)
    requires depth <= NESTING_LIMIT && from < |c|
    ensures Reads(MembersAfter(lx, c, from, depth), FitMembers(EntryValues(entries), depth) && EntriesPaired(entries),
                  EntryValues(entries), p + WidthEntries(entries))
    decreases entries, 0
  {
    hide Leads, SkipWs, MembersAfter, ValueAt, Value, Width, Nesting, AllPaired;
    var e, stop := entries.item, p + WidthEntries(entries);
    var m := Member(e.key, Value(e.value));
    var at := p + e.before + e.width + e.colon + 1 + e.lead;
    var end := at + Width(e.value);
    var good := Fits(m.value, depth) && AllPaired(e.value);
    PlacedIsRead(lx, c, at, e.value, depth);
    match entries {
      case Last(_) =>
        FitLastMember(m, depth);
        MembersTurn(lx, c, from, depth, m, e.paired, at, end, e.after, good, true, Nil, stop);
      case More(_, entries') =>
        var sep, rest := end + e.after, EntryValues(entries');
        EntriesAreRead(lx, c, sep, sep + 1, entries', depth);
        MembersTurn(lx, c, from, depth, m, e.paired, at, end, e.after, good,
                    FitMembers(rest, depth) && EntriesPaired(entries'), rest, stop);
    }
  }
}
