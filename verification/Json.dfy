/** JSON values, their rendering, and the grammar that parse_value accepts, as
    functions. The imperative parser and printer are proved against these. */
module Json {
  import opened Bytes
  import opened NumberCodec
  import opened StringCodec
  import opened Lists

  const NESTING_LIMIT: nat := 1000

  /** A value as cJSON keeps it: object members in order, duplicate keys kept. */
  datatype Json =
    | Null
    | False
    | True
    | Number(d: real)
    | String(s: bytes)
    | Array(items: List<Json>)
    | Object(members: List<Member>)

  datatype Member = Member(key: bytes, value: Json)

  function Max(a: nat, b: nat): nat {
    if a < b then b else a
  }

  /** How deeply arrays and objects are nested. */
  function Nesting(j: Json): nat
    decreases j, 1
  {
    match j
    case Array(items) => 1 + NestingItems(items)
    case Object(members) => 1 + NestingMembers(members)
    case _ => 0
  }

  function NestingItems(items: List<Json>): nat
    decreases items, 0
  {
    match items
    case Nil => 0
    case Cons(j, rest) => Max(Nesting(j), NestingItems(rest))
  }

  function NestingMembers(members: List<Member>): nat
    decreases members, 0
  {
    match members
    case Nil => 0
    case Cons(m, rest) => Max(Nesting(m.value), NestingMembers(rest))
  }

  // What the nesting limit leaves room for inside depth enclosing arrays and objects.

  predicate Fits(j: Json, depth: nat) {
    depth + Nesting(j) <= NESTING_LIMIT
  }

  predicate FitItems(items: List<Json>, depth: nat) {
    depth + NestingItems(items) <= NESTING_LIMIT
  }

  predicate FitMembers(members: List<Member>, depth: nat) {
    depth + NestingMembers(members) <= NESTING_LIMIT
  }

  /** The values whose text cJSON can promise to read back: every number is in the
      int range, and every string and key is a C string. */
  predicate Printable(j: Json)
    decreases j, 1
  {
    match j
    case Number(d) => IsIntRange(d)
    case String(s) => NUL !in s
    case Array(items) => PrintableItems(items)
    case Object(members) => PrintableMembers(members)
    case _ => true
  }

  predicate PrintableItems(items: List<Json>)
    decreases items, 0
  {
    items.Cons? ==> Printable(items.head) && PrintableItems(items.tail)
  }

  predicate PrintableMembers(members: List<Member>)
    decreases members, 0
  {
    members.Cons? ==>
      NUL !in members.head.key && Printable(members.head.value) && PrintableMembers(members.tail)
  }

  // ---- rendering ------------------------------------------------------------------

  function Tabs(n: nat): (t: bytes)
    ensures |t| == n
  {
    if n == 0 then [] else [TAB] + Tabs(n - 1)
  }

  function When(b: bool, t: bytes): bytes {
    if b then t else []
  }

  /** The text of a value, formatted or not, inside depth enclosing arrays and objects. */
  function Render(j: Json, fmt: bool, depth: nat): bytes
    decreases j, 1
  {
    match j
    case Null => NULL_TEXT
    case False => FALSE_TEXT
    case True => TRUE_TEXT
    case Number(d) => FormatInt(ToInt(d))
    case String(s) => Quote(s)
    case Array(items) => [LBRACKET] + RenderItems(items, fmt, depth + 1) + [RBRACKET]
    case Object(members) =>
      [LBRACE] + When(fmt, [NEWLINE]) + RenderMembers(members, fmt, depth + 1)
      + When(fmt, Tabs(depth)) + [RBRACE]
  }

  function ItemSeparator(fmt: bool, last: bool): bytes {
    if last then [] else [COMMA] + When(fmt, [SPACE])
  }

  function RenderItems(items: List<Json>, fmt: bool, depth: nat): bytes
    decreases items, 0
  {
    match items
    case Nil => []
    case Cons(j, rest) =>
      Render(j, fmt, depth) + ItemSeparator(fmt, rest.Nil?) + RenderItems(rest, fmt, depth)
  }

  /** The part of a member's line in front of its value. */
  function MemberLead(key: bytes, fmt: bool, depth: nat): bytes {
    When(fmt, Tabs(depth)) + Quote(key) + [COLON] + When(fmt, [TAB])
  }

  function MemberEnd(fmt: bool, last: bool): bytes {
    When(!last, [COMMA]) + When(fmt, [NEWLINE])
  }

  function RenderMembers(members: List<Member>, fmt: bool, depth: nat): bytes
    decreases members, 0
  {
    match members
    case Nil => []
    case Cons(m, rest) =>
      MemberLead(m.key, fmt, depth) + Render(m.value, fmt, depth) + MemberEnd(fmt, rest.Nil?)
      + RenderMembers(rest, fmt, depth)
  }

  lemma BothNulFree(a: bytes, b: bytes)
    ensures NUL !in a + b <==> NUL !in a && NUL !in b
  {
  }

  lemma {:induction false} RenderIsNulFree(j: Json, fmt: bool, depth: nat)
    requires Printable(j)
    ensures NUL !in Render(j, fmt, depth)
    decreases j, 1
  {
    match j {
      case Number(d) => FormatIntIsNulFree(ToInt(d));
      case String(s) => EscapeIsNulFree(s);
      case Array(items) =>
        RenderItemsNulFree(items, fmt, depth + 1);
        BothNulFree([LBRACKET], RenderItems(items, fmt, depth + 1));
        BothNulFree([LBRACKET] + RenderItems(items, fmt, depth + 1), [RBRACKET]);
      case Object(members) =>
        RenderMembersNulFree(members, fmt, depth + 1);
        BracedNulFree(RenderMembers(members, fmt, depth + 1), fmt, depth);
      case _ =>
    }
  }

  lemma BracedNulFree(body: bytes, fmt: bool, depth: nat)
    requires NUL !in body
    ensures NUL !in [LBRACE] + When(fmt, [NEWLINE]) + body + When(fmt, Tabs(depth)) + [RBRACE]
  {
    hide Tabs;
    TabsNulFree(depth);
  }

  lemma {:induction false} RenderItemsNulFree(items: List<Json>, fmt: bool, depth: nat)
    requires PrintableItems(items)
    ensures NUL !in RenderItems(items, fmt, depth)
    decreases items, 0
  {
    if items.Cons? {
      RenderIsNulFree(items.head, fmt, depth);
      RenderItemsNulFree(items.tail, fmt, depth);
    }
  }

  lemma {:induction false} RenderMembersNulFree(members: List<Member>, fmt: bool, depth: nat)
    requires PrintableMembers(members)
    ensures NUL !in RenderMembers(members, fmt, depth)
    decreases members, 0
  {
    if members.Cons? {
      var m := members.head;
      EscapeIsNulFree(m.key);
      TabsNulFree(depth);
      assert NUL !in MemberLead(m.key, fmt, depth);
      RenderIsNulFree(m.value, fmt, depth);
      RenderMembersNulFree(members.tail, fmt, depth);
    }
  }

  lemma {:induction false} TabsNulFree(n: nat)
    ensures NUL !in Tabs(n)
  {
    if n > 0 {
      TabsNulFree(n - 1);
    }
  }

  // ---- parsing --------------------------------------------------------------------

  /** buffer_skip_whitespace: bytes up to 32 are skipped, NUL among them, and a skip
      that runs into the end of the buffer steps back onto the last byte. */
  function SkipWs(c: bytes, off: nat): (r: nat)
    requires off <= |c|
    ensures off <= r <= |c|
    ensures off < |c| ==> r < |c|
    ensures r < |c| && c[r] <= SPACE ==> r == |c| - 1
    decreases |c| - off
  {
    if off < |c| && c[off] <= SPACE && off + 1 < |c| then SkipWs(c, off + 1) else off
  }

  /** Either a failure, or a value and the offset after it. */
  datatype Parsed<T> = Bad | Good(value: T, next: nat)

  predicate IsNullAt(c: bytes, off: nat) {
    off + 4 <= |c| && c[off] == 110 && c[off + 1] == 117 && c[off + 2] == 108 && c[off + 3] == 108
  }

  predicate IsFalseAt(c: bytes, off: nat) {
    off + 5 <= |c| && c[off] == 102 && c[off + 1] == 97 && c[off + 2] == 108 && c[off + 3] == 115
    && c[off + 4] == 101
  }

  predicate IsTrueAt(c: bytes, off: nat) {
    off + 4 <= |c| && c[off] == 116 && c[off + 1] == 114 && c[off + 2] == 117 && c[off + 3] == 101
  }

  /** The three words are the same for the printer and for the parser. */
  lemma WordsAreSpelled(c: bytes, off: nat, fmt: bool, depth: nat)
    ensures Render(Null, fmt, depth) == Ascii("null")
    ensures Render(False, fmt, depth) == Ascii("false")
    ensures Render(True, fmt, depth) == Ascii("true")
    ensures IsNullAt(c, off) <==> off + 4 <= |c| && c[off..off + 4] == Ascii("null")
    ensures IsFalseAt(c, off) <==> off + 5 <= |c| && c[off..off + 5] == Ascii("false")
    ensures IsTrueAt(c, off) <==> off + 4 <= |c| && c[off..off + 4] == Ascii("true")
  {
    assert Ascii("null") == NULL_TEXT && Ascii("false") == FALSE_TEXT && Ascii("true") == TRUE_TEXT;
    if off + 4 <= |c| {
      var four := c[off..off + 4];
      assert four[0] == c[off] && four[1] == c[off + 1] && four[2] == c[off + 2] && four[3] == c[off + 3];
    }
    if off + 5 <= |c| {
      var five := c[off..off + 5];
      assert five[0] == c[off] && five[1] == c[off + 1] && five[2] == c[off + 2] && five[3] == c[off + 3]
             && five[4] == c[off + 4];
    }
  }

  // Strings, numbers and member keys are read by a lexer. The grammar does not look
  // inside it; it demands that what is read is not empty and ends inside the buffer.

  type Reader<!T> = (bytes, nat) -> Parsed<T>

  datatype RawLexer = RawLexer(str: Reader<bytes>, num: Reader<Json>, key: Reader<bytes>)

  ghost predicate Advances<T(!new)>(read: Reader<T>) {
    forall c: bytes, off: nat :: read(c, off).Good? ==> off < read(c, off).next <= |c|
  }

  type Lexer = lx: RawLexer | Advances(lx.str) && Advances(lx.num) && Advances(lx.key)
    witness RawLexer((_, _) => Bad, (_, _) => Bad, (_, _) => Bad)

  /** parse_number: strtod on the run of number characters. */
  function NumberAt(c: bytes, off: nat): (r: Parsed<Json>)
    ensures r.Good? ==> off < r.next <= |c|
  {
    if off > |c| then Bad
    else
      var reading := Strtod(NumberRun(c, off));
      if reading.used == 0 then Bad else Good(Number(reading.value), off + reading.used)
  }

  /** parse_string: the decoded bytes, as a C string. */
  function StringAt(c: bytes, off: nat): (r: Parsed<bytes>)
    ensures r.Good? ==> off < r.next <= |c|
  {
    if off >= |c| then Bad
    else
      match ParseLiteral(c, off)
      case BadLiteral => Bad
      case Literal(text, next) => Good(UpToNul(text), next)
  }

  /** The head of a member after the byte at off: blanks, a key that str reads, the
      colon, and the blanks in front of the value. */
  function ReadKey(str: Reader<bytes>, c: bytes, off: nat): (r: Parsed<bytes>)
    requires Advances(str)
    ensures r.Good? ==> off < r.next <= |c|
  {
    if off + 1 >= |c| then Bad
    else
      match str(c, SkipWs(c, off + 1))
      case Bad => Bad
      case Good(key, next) =>
        var colon := SkipWs(c, next);
        if ByteIs(c, colon, COLON) then Good(key, SkipWs(c, colon + 1)) else Bad
  }

  function KeyAfter(c: bytes, off: nat): (r: Parsed<bytes>)
    ensures r.Good? ==> off < r.next <= |c|
  {
    ReadKey(StringAt, c, off)
  }

  /** The lexer of cJSON.c. */
  const CJSON: Lexer := RawLexer(StringAt, NumberAt, KeyAfter)

  /** Marks the offset of a token whose reading is to be looked up. */
  predicate Token(c: bytes, off: nat) { true }

  /** lx reads tokens as cJSON.c does. */
  ghost predicate ReadsTokens(lx: Lexer) {
    forall c: bytes, off: nat {:trigger Token(c, off)} :: Token(c, off) ==>
      && lx.str(c, off) == StringAt(c, off)
      && lx.num(c, off) == NumberAt(c, off)
      && lx.key(c, off) == ReadKey(lx.str, c, off)
  }

  lemma CjsonReadsTokens()
    ensures ReadsTokens(CJSON)
  {
  }

  function ValueAt(lx: Lexer, c: bytes, off: nat, depth: nat): (r: Parsed<Json>)
    requires off <= |c|
    ensures r.Good? ==> off < r.next <= |c|
    decreases |c| - off, 2
  {
    if IsNullAt(c, off) then Good(Null, off + 4)
    else if IsFalseAt(c, off) then Good(False, off + 5)
    else if IsTrueAt(c, off) then Good(True, off + 4)
    else if off == |c| then Bad
    else if c[off] == QUOTE then
      match lx.str(c, off)
      case Bad => Bad
      case Good(s, next) => Good(String(s), next)
    else if c[off] == MINUS || IsDigit(c[off]) then lx.num(c, off)
    else if c[off] == LBRACKET then ArrayAt(lx, c, off, depth)
    else if c[off] == LBRACE then ObjectAt(lx, c, off, depth)
    else Bad
  }

  function ArrayAt(lx: Lexer, c: bytes, off: nat, depth: nat): (r: Parsed<Json>)
    requires off < |c|
    ensures r.Good? ==> off < r.next <= |c|
    decreases |c| - off, 1
  {
    if depth >= NESTING_LIMIT then Bad
    else
      var first := SkipWs(c, off + 1);
      if ByteIs(c, first, RBRACKET) then Good(Array(Nil), first + 1)
      else if first == |c| then Bad
      else
        match ItemsAfter(lx, c, first - 1, depth + 1)
        case Bad => Bad
        case Good(items, next) => Good(Array(items), next)
  }

  /** The elements after the byte at off, which is the bracket's last byte or a comma. */
  function ItemsAfter(lx: Lexer, c: bytes, off: nat, depth: nat): (r: Parsed<List<Json>>)
    requires off < |c|
    ensures r.Good? ==> off < r.next <= |c|
    decreases |c| - off, 0
  {
    match ValueAt(lx, c, SkipWs(c, off + 1), depth)
    case Bad => Bad
    case Good(v, next) =>
      var after := SkipWs(c, next);
      if ByteIs(c, after, COMMA) then
        match ItemsAfter(lx, c, after, depth)
        case Bad => Bad
        case Good(rest, end) => Good(Cons(v, rest), end)
      else if ByteIs(c, after, RBRACKET) then Good(Cons(v, Nil), after + 1)
      else Bad
  }

  function ObjectAt(lx: Lexer, c: bytes, off: nat, depth: nat): (r: Parsed<Json>)
    requires off < |c|
    ensures r.Good? ==> off < r.next <= |c|
    decreases |c| - off, 1
  {
    if depth >= NESTING_LIMIT then Bad
    else
      var first := SkipWs(c, off + 1);
      if ByteIs(c, first, RBRACE) then Good(Object(Nil), first + 1)
      else if first == |c| then Bad
      else
        match MembersAfter(lx, c, first - 1, depth + 1)
        case Bad => Bad
        case Good(members, next) => Good(Object(members), next)
  }

  function MembersAfter(lx: Lexer, c: bytes, off: nat, depth: nat): (r: Parsed<List<Member>>)
    requires off < |c|
    ensures r.Good? ==> off < r.next <= |c|
    decreases |c| - off, 0
  {
    match lx.key(c, off)
    case Bad => Bad
    case Good(key, at) =>
      match ValueAt(lx, c, at, depth)
      case Bad => Bad
      case Good(v, next) =>
        var after := SkipWs(c, next);
        if ByteIs(c, after, COMMA) then
          match MembersAfter(lx, c, after, depth)
          case Bad => Bad
          case Good(rest, end) => Good(Cons(Member(key, v), rest), end)
        else if ByteIs(c, after, RBRACE) then Good(Cons(Member(key, v), Nil), after + 1)
        else Bad
  }

  function SkipBom(c: bytes): (r: nat)
    ensures r <= |c|
  {
    if 4 < |c| && c[0] == 0xEF && c[1] == 0xBB && c[2] == 0xBF then 3 else 0
  }

  /** cJSON_ParseWithLengthOpts: c is the whole buffer, its terminator included. */
  function ParseText(c: bytes, requireNul: bool): (r: Parsed<Json>)
    ensures r.Good? ==> r.next <= |c|
  {
    if c == [] then Bad
    else
      match ValueAt(CJSON, c, SkipWs(c, SkipBom(c)), 0)
      case Bad => Bad
      case Good(v, next) =>
        if !requireNul then Good(v, next)
        else
          var end := SkipWs(c, next);
          if ByteIs(c, end, NUL) then Good(v, end) else Bad
  }
}
