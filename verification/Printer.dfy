/** The printer of cJSON.c: it sizes a chunk, writes it in place, and learns the length
    of a printed value afterwards. Proved against Render, with the exact size bound. */
module Printer {
  import opened Bytes
  import opened Options
  import opened Lists
  import opened NumberCodec
  import opened StringCodec
  import opened Json
  import opened Heap
  import opened View

  /** memcpy. */
  method Copy(dst: array<byte>, at: nat, src: array<byte>, from: nat, n: nat)
    requires dst != src && at + n <= dst.Length && from + n <= src.Length
    modifies dst
    ensures dst[..at + n] == old(dst[..at]) + src[from..from + n]
    ensures dst[at + n..] == old(dst[at + n..])
  {
    assert old(dst[..at]) + src[from..from] == dst[..at];
    for i := 0 to n
      invariant dst[..at + i] == old(dst[..at]) + src[from..from + i]
      invariant dst[at + i..] == old(dst[at + i..])
    {
      dst[at + i] := src[from + i];
      assert src[from..from + i + 1] == src[from..from + i] + [src[from + i]];
    }
  }

  function Min(a: nat, b: nat): nat {
    if a < b then a else b
  }

  function Pow2(n: nat): (p: nat)
    ensures p > 0
  {
    if n == 0 then 1 else 2 * Pow2(n - 1)
  }

  /** Each growth at least doubles the length, so the largest request so far bounds how
      many there were. */
  ghost predicate Sized(initial: nat, length: nat, peak: nat, growths: nat) {
    && (growths > 0 ==> initial * Pow2(growths - 1) < peak)
    && (length >= initial * Pow2(growths) || length == INT_MAX)
  }

  lemma SizedAfterGrowth(initial: nat, length: nat, peak: nat, growths: nat, n: nat, newsize: nat)
    requires Sized(initial, length, peak, growths) && length < n <= INT_MAX
    requires newsize == 2 * n || newsize == INT_MAX
    ensures Sized(initial, newsize, Max(peak, n), growths + 1)
  {
    assert initial * Pow2(growths + 1) == 2 * (initial * Pow2(growths));
  }

  lemma SizedWithPeak(initial: nat, length: nat, peak: nat, growths: nat, n: nat)
    requires Sized(initial, length, peak, growths)
    ensures Sized(initial, length, Max(peak, n), growths)
  {
  }

  // What print_value refuses: arrays and objects nested too deeply, and nodes without a type.

  predicate CanPrint(t: Shape, depth: nat) {
    Fits(ValueOf(t), depth) && Typed(t)
  }

  predicate CanPrintItems(ts: List<Shape>, depth: nat) {
    FitItems(ValuesOf(ts), depth) && TypedList(ts)
  }

  predicate CanPrintMembers(ts: List<Shape>, depth: nat) {
    FitMembers(MembersOf(ts), depth) && TypedList(ts)
  }

  class PrintBuffer {
    var buffer: array?<byte>
    var length: nat
    var offset: nat
    var depth: nat
    const noalloc: bool
    const format: bool
    const hasRealloc: bool
    const heap: Allocator
    ghost const initial: nat
    ghost const rest: set<object>
    ghost var peak: nat
    ghost var growths: nat

    constructor (buffer: array<byte>, length: nat, noalloc: bool, format: bool, hasRealloc: bool, heap: Allocator)
      ensures this.buffer == buffer && this.length == length && offset == 0 && depth == 0
      ensures this.noalloc == noalloc && this.format == format && this.hasRealloc == hasRealloc && this.heap == heap
      ensures initial == length && peak == 0 && growths == 0
      ensures rest == if noalloc then heap.live else heap.live - {buffer}
    {
      this.buffer, this.length, offset, depth := buffer, length, 0, 0;
      this.noalloc, this.format, this.hasRealloc, this.heap := noalloc, format, hasRealloc, heap;
      initial, peak, growths := length, 0, 0;
      rest := if noalloc then heap.live else heap.live - {buffer};
    }

    /** The largest size that ensure can provide. */
    function Cap(): nat
      reads this
    {
      if noalloc then length else INT_MAX
    }

    /** The buffer, when it is the printer's own to grow and free. */
    function Mine(): set<object>
      reads this
    {
      if buffer == null || noalloc then {} else {buffer}
    }

    /** The live objects are the buffer and the rest, which the printer leaves alone. */
    ghost predicate Accounted()
      reads this, heap
    {
      heap.live == rest + Mine() && Mine() !! rest
    }

    ghost predicate Ready()
      reads this, heap
    {
      && buffer != null && length <= buffer.Length && length <= INT_MAX
      && (noalloc || offset < length || (hasRealloc && offset == 0 && length == 0))
      && Accounted()
      && (!noalloc ==> Sized(initial, length, peak, growths))
    }

    /** realloc(buffer, newsize), or allocation and a copy of the bytes up to offset. */
    method Grow(newsize: nat)
      requires buffer != null && !noalloc && buffer in heap.live
      requires offset < newsize && length < newsize && length <= buffer.Length
      requires hasRealloc || CopyStaysInside(length, offset)
      requires offset <= length
      modifies this`buffer, this`length, heap
      ensures heap.denials >= old(heap.denials)
      ensures buffer == null <==> heap.denials > old(heap.denials)
      ensures buffer == null ==> length == 0 && heap.live == old(heap.live) - {old(buffer)}
      ensures buffer != null ==> fresh(buffer) && buffer.Length == newsize && length == newsize
      ensures buffer != null ==> buffer[..offset] == old(buffer[..offset])
      ensures buffer != null ==> heap.live == old(heap.live) - {old(buffer)} + {buffer}
    {
      var newbuffer := heap.NewBytes(newsize);
      if newbuffer == null {
        heap.Free(buffer);
        length, buffer := 0, null;
        return;
      }
      var n := if hasRealloc then length else offset + 1;
      Copy(newbuffer, 0, buffer, 0, n);
      assert newbuffer[..offset] == newbuffer[..n][..offset] == buffer[..offset];
      heap.Free(buffer);
      length, buffer := newsize, newbuffer;
    }

    /** Room for needed bytes and one more behind offset. The bytes up to offset stay. */
    method Ensure(needed: nat) returns (ok: bool)
      requires Ready()
      modifies this`buffer, this`length, this`peak, this`growths, heap
      ensures Moved()
      ensures ok <==> offset + needed + 1 <= old(Cap()) && heap.denials == old(heap.denials)
      ensures ok ==> Ready() && offset + needed + 1 <= length && buffer[..offset] == old(buffer[..offset])
      ensures ok ==> var n := offset + needed + 1;
        length == if n <= old(length) then old(length) else if n <= 0x3FFF_FFFF then 2 * n else 0x7FFF_FFFF
      ensures ok ==> Cap() == old(Cap()) && peak == Max(old(peak), offset + needed + 1)
    {
      hide Sized;
      if length > 0 && offset >= length {
        return false;
      }
      if needed > INT_MAX {
        return false;
      }
      var n := needed + offset + 1;
      if n <= length {
        if !noalloc {
          SizedWithPeak(initial, length, peak, growths, n);
        }
        peak := Max(peak, n);
        return true;
      }
      if noalloc {
        return false;
      }
      var newsize := 0;
      if n > INT_MAX / 2 {
        if n <= INT_MAX {
          newsize := INT_MAX;
        } else {
          return false;
        }
      } else {
        newsize := n * 2;
      }
      Grow(newsize);
      if buffer == null {
        return false;
      }
      SizedAfterGrowth(initial, old(length), peak, growths, n, newsize);
      peak, growths := Max(peak, n), growths + 1;
      ok := true;
    }

    // ---- what has been written -----------------------------------------------------------

    ghost function Prefix(): bytes
      requires buffer != null && offset <= buffer.Length
      reads this, buffer
    {
      buffer[..offset]
    }

    /** text stands at the start of the buffer, terminated; offset may lag behind. */
    ghost predicate Wrote(text: bytes)
      reads this, buffer
    {
      && buffer != null && offset <= |text| < length <= buffer.Length
      && buffer[..|text|] == text && buffer[|text|] == NUL
    }

    /** What any printing step keeps, successful or not. */
    twostate predicate Moved()
      reads this, heap
    {
      && heap.denials >= old(heap.denials) && Accounted()
      && (buffer == null || buffer == old(buffer) || fresh(buffer))
      && (noalloc ==> buffer == old(buffer) && length == old(length) && heap.denials == old(heap.denials))
    }

    /** A step that appends r, if fits holds, the buffer can be large enough for r and two
        bytes more, and no allocation is refused. */
    twostate predicate Appended(ok: bool, r: bytes, fits: bool)
      requires old(Ready() && offset <= length)
      reads this, heap, buffer
    {
      && (ok <==> fits && old(offset) + |r| + 2 <= old(Cap()) && heap.denials == old(heap.denials))
      && (ok ==> Ready() && Wrote(old(Prefix()) + r) && old(offset) <= offset && depth == old(depth)
                 && peak == Max(old(peak), old(offset) + |r| + 2))
    }

    /** strlen from offset on finds the end of what was appended to before. */
    method UpdateOffset(ghost before: bytes, ghost r: bytes)
      requires Wrote(before + r) && |before| <= offset && NUL !in r
      modifies this`offset
      ensures offset == |before + r| && Prefix() == before + r
    {
      ghost var text := before + r;
      var n: nat := 0;
      EndsWith(before, r, offset);
      while buffer[offset + n] != NUL
        modifies {}
        invariant offset + n <= |text|
        invariant buffer[offset + n] == NUL <==> offset + n == |text|
        decreases |text| - n
      {
        n := n + 1;
        EndsWith(before, r, offset + n);
      }
      offset := offset + n;
    }

    /** Behind before, the text before + r ends where a NUL stands. */
    lemma EndsWith(before: bytes, r: bytes, i: nat)
      requires Wrote(before + r) && NUL !in r && |before| <= i <= |before + r|
      ensures buffer[i] == NUL <==> i == |before + r|
    {
      if i < |before + r| {
        assert buffer[i] == buffer[..|before + r|][i] == r[i - |before|];
      }
    }

    /** strcpy of a literal to offset, after ensure has made room. */
    method Store(text: bytes)
      requires buffer != null && length <= buffer.Length && offset + |text| + 1 <= length
      modifies buffer
      ensures Wrote(old(Prefix()) + text)
    {
      for i := 0 to |text|
        invariant buffer[..offset + i] == old(Prefix()) + text[..i]
      {
        buffer[offset + i] := text[i];
      }
      assert text[..|text|] == text;
      buffer[offset + |text|] := NUL;
    }

    method PrintLiteral(text: bytes) returns (ok: bool)
      requires Ready() && offset <= length
      modifies this, heap, buffer
      ensures Moved() && Appended(ok, text, true)
    {
      ok := Ensure(|text| + 1);
      if ok {
        Store(text);
      }
    }

    /** print_number, for the values that it prints with %d. */
    method PrintNumber(item: Node) returns (ok: bool)
      requires Ready() && offset <= length
      requires item.valueint == ToInt(item.valuedouble) && IsIntRange(item.valuedouble)
      modifies this, heap, buffer
      ensures Moved() && Appended(ok, FormatInt(ToInt(item.valuedouble)), true)
    {
      var numberBuffer := FormatInt(item.valueint);
      FormatIntIsShort(item.valueint);
      assert |numberBuffer| < 26;
      ok := Ensure(|numberBuffer| + 1);
      if ok {
        Store(numberBuffer);
        offset := offset + |numberBuffer|;
      }
    }

    /** The counting loop of print_string_ptr. */
    method CountEscapes(input: array<byte>, ghost s: bytes) returns (n: nat, escapes: nat)
      requires CellIs(input, Some(Cell(input, s)))
      ensures n == |s| && escapes == ExtraTotal(s)
    {
      n, escapes := 0, 0;
      assert s[..0] == [];
      CellEnds(input, Some(Cell(input, s)), n);
      while input[n] != NUL
        invariant n <= |s| && (input[n] == NUL <==> n == |s|) && escapes == ExtraTotal(s[..n])
        decreases |s| - n
      {
        CellEnds(input, Some(Cell(input, s)), n);
        assert s[..n + 1] == s[..n] + [s[n]];
        EscapeAppend(s[..n], [s[n]]);
        escapes := escapes + Extra(input[n]);
        n := n + 1;
        CellEnds(input, Some(Cell(input, s)), n);
      }
      assert s[..n] == s;
    }

    /** sprintf of u%04x, whose terminator the next byte overwrites. */
    method WriteHex(b: byte, at: nat)
      requires buffer != null && b < 32 && at + 5 < buffer.Length
      modifies buffer
      ensures forall k :: 0 <= k < at ==> buffer[k] == old(buffer[k])
      ensures buffer[at] == LOWER_U && buffer[at + 1] == 48 && buffer[at + 2] == 48
      ensures buffer[at + 3] == LowerHex(b as nat / 16) && buffer[at + 4] == LowerHex(b as nat % 16)
    {
      buffer[at], buffer[at + 1], buffer[at + 2] := LOWER_U, 48, 48;
      buffer[at + 3], buffer[at + 4], buffer[at + 5] := LowerHex(b as nat / 16), LowerHex(b as nat % 16), NUL;
    }

    /** One turn of the escaping loop of print_string_ptr. */
    method WriteEscape(b: byte, at: nat) returns (o: nat)
      requires buffer != null && b != NUL && at + |EscapeByte(b)| < buffer.Length
      modifies buffer
      ensures o == at + |EscapeByte(b)| && buffer[..o] == old(buffer[..at]) + EscapeByte(b)
    {
      hide LowerHex;
      ghost var before, e := buffer[..at], EscapeByte(b);
      o := at;
      if b > 31 && b != QUOTE && b != BACKSLASH {
        buffer[o] := b;
      } else {
        buffer[o] := BACKSLASH;
        o := o + 1;
        match b {
          case 92 | 34 => buffer[o] := b;
          case 8 => buffer[o] := LOWER_B;
          case 12 => buffer[o] := LOWER_F;
          case 10 => buffer[o] := LOWER_N;
          case 13 => buffer[o] := LOWER_R;
          case 9 => buffer[o] := LOWER_T;
          case _ =>
            WriteHex(b, o);
            o := o + 4;
        }
      }
      o := o + 1;
      assert o == at + |e|;
      forall k | 0 <= k < o
        ensures buffer[..o][k] == (before + e)[k]
      {
        assert k < at ==> buffer[k] == before[k];
        assert k >= at ==> buffer[k] == e[k - at];
      }
    }

    method Put(at: nat, b: byte)
      requires buffer != null && at < buffer.Length
      modifies buffer
      ensures buffer[..at + 1] == old(buffer[..at]) + [b] && buffer[at] == b
    {
      buffer[at] := b;
    }

    /** The escaping loop, from the byte behind the opening quote. */
    method WriteEscaped(input: array<byte>, ghost s: bytes, at: nat)
      requires buffer != null && buffer != input && CellIs(input, Some(Cell(input, s)))
      requires at + |Escape(s)| < buffer.Length
      modifies buffer
      ensures buffer[..at + |Escape(s)|] == old(buffer[..at]) + Escape(s)
    {
      hide Escape, EscapeByte;
      var i: nat, o: nat := 0, at;
      EscapeNothing(s);
      CellEnds(input, Some(Cell(input, s)), i);
      while input[i] != NUL
        invariant i <= |s| && (input[i] == NUL <==> i == |s|) && o == at + |Escape(s[..i])| && o <= at + |Escape(s)|
        invariant buffer[..o] == old(buffer[..at]) + Escape(s[..i])
        decreases |s| - i
      {
        CellEnds(input, Some(Cell(input, s)), i);
        EscapeGrows(s, i);
        o := WriteEscape(input[i], o);
        i := i + 1;
        CellEnds(input, Some(Cell(input, s)), i);
      }
      assert s[..i] == s;
    }

    /** The part of print_string_ptr after ensure. */
    method WriteQuoted(input: array<byte>, ghost s: bytes, outputLength: nat, escapes: nat)
      requires buffer != null && length <= buffer.Length && buffer != input && CellIs(input, Some(Cell(input, s)))
      requires outputLength == |Escape(s)| && (escapes == 0 ==> Escape(s) == s)
      requires offset + outputLength + 4 <= length
      modifies buffer
      ensures Wrote(old(Prefix()) + Quote(s))
    {
      hide Escape;
      ghost var before := Prefix();
      Put(offset, QUOTE);
      if escapes == 0 {
        Copy(buffer, offset + 1, input, 0, outputLength);
        assert input[0..0 + outputLength] == s;
      } else {
        WriteEscaped(input, s, offset + 1);
      }
      Put(offset + 1 + outputLength, QUOTE);
      buffer[offset + 2 + outputLength] := NUL;
      QuotedBehind(before, s, buffer[..offset + 2 + outputLength]);
    }

    /** print_string_ptr. A null pointer prints as the empty string. */
    method PrintStringPtr(input: array?<byte>, ghost cell: Option<Cell>) returns (ok: bool)
      requires Ready() && offset <= length && CellIs(input, cell) && (input == null || input != buffer)
      modifies this, heap, buffer
      ensures Moved() && Appended(ok, Quote(TextOf(cell)), true)
    {
      hide Escape, ExtraTotal;
      ghost var s := TextOf(cell);
      EscapeLength(s);
      if input == null {
        EscapeNothing(s);
        assert Quote(s) == [QUOTE, QUOTE];
        ok := PrintLiteral([QUOTE, QUOTE]);
        return;
      }
      var n, escapes := CountEscapes(input, s);
      ok := Ensure(n + escapes + 3);
      if ok {
        WriteQuoted(input, s, n + escapes, escapes);
      }
    }

    // ---- values --------------------------------------------------------------------------

    /** The tree being printed shares nothing with the printer. */
    ghost predicate Outside(tree: set<object>)
      reads this
    {
      this !in tree && heap !in tree && (buffer == null || buffer !in tree)
    }

    /** Steps inside an array or object append r and move offset past it. If they fail,
        then the whole value does not fit, or is nested too deeply, or memory is refused. */
    twostate predicate Extended(ok: bool, r: bytes, fits: bool)
      requires old(Ready() && offset <= length)
      reads this, heap, buffer
    {
      && (ok ==> fits && heap.denials == old(heap.denials) && Ready() && offset <= length && depth == old(depth)
                 && Prefix() == old(Prefix()) + r && offset == old(offset) + |r|
                 && old(peak) <= peak <= Max(old(peak), offset + 2))
      && (!ok ==> !fits || old(offset) + |r| + 2 > old(Cap()) || heap.denials > old(heap.denials))
    }

    method PrintValue(item: Node, ghost t: Shape, ghost tree: set<object>) returns (ok: bool)
      requires Ready() && offset <= length && depth <= NESTING_LIMIT && Outside(tree)
      requires t.node == item && Shows(t) && Reach(t) <= tree && Printable(ValueOf(t))
      modifies this, heap, buffer
      ensures Moved()
      ensures Appended(ok, Render(ValueOf(t), format, old(depth)), CanPrint(t, old(depth)))
      decreases t, 3
    {
      hide Quote, FormatInt;
      match item.kind {
        case Invalid => ok := false;
        case NullKind => ok := PrintLiteral(NULL_TEXT);
        case FalseKind => ok := PrintLiteral(FALSE_TEXT);
        case TrueKind => ok := PrintLiteral(TRUE_TEXT);
        case NumberKind => ok := PrintNumber(item);
        case StringKind => ok := PrintStringPtr(item.valuestring, t.str);
        case ArrayKind => ok := PrintArray(item, t, tree);
        case ObjectKind => ok := PrintObject(item, t, tree);
      }
    }

    /** A value inside an array or object, and the update of offset behind it. */
    method PrintInner(item: Node, ghost t: Shape, ghost tree: set<object>) returns (ok: bool)
      requires Ready() && offset <= length && depth <= NESTING_LIMIT && Outside(tree)
      requires t.node == item && Shows(t) && Reach(t) <= tree && Printable(ValueOf(t))
      modifies this, heap, buffer
      ensures Moved() && Extended(ok, Render(ValueOf(t), format, old(depth)), CanPrint(t, old(depth)))
      decreases t, 4
    {
      hide Render, Shows, Printable, CanPrint;
      ghost var before, r := Prefix(), Render(ValueOf(t), format, depth);
      RenderIsNulFree(ValueOf(t), format, depth);
      ok := PrintValue(item, t, tree);
      if ok {
        UpdateOffset(before, r);
      }
    }

    method PrintItemSeparator(last: bool) returns (ok: bool)
      requires Ready() && offset <= length
      modifies this, heap, buffer
      ensures Moved() && Extended(ok, ItemSeparator(format, last), true)
    {
      ok := true;
      if !last {
        var separator := if format then [COMMA, SPACE] else [COMMA];
        ok := Ensure(|separator| + 1);
        if ok {
          Store(separator);
          offset := offset + |separator|;
        }
      }
    }

    /** One turn of print_array's loop. */
    method PrintItem(item: Node, ghost t: Shape, ghost tree: set<object>) returns (ok: bool)
      requires Ready() && offset <= length && depth <= NESTING_LIMIT && Outside(tree)
      requires t.node == item && Shows(t) && Reach(t) <= tree && Printable(ValueOf(t))
      modifies this, heap, buffer
      ensures Moved()
      ensures Extended(ok, Render(ValueOf(t), format, old(depth)) + ItemSeparator(format, item.next == null),
                       CanPrint(t, old(depth)))
      decreases t, 5
    {
      hide Render, Shows, Printable, CanPrint, ItemSeparator;
      ghost var before, r := Prefix(), Render(ValueOf(t), format, depth);
      ok := PrintInner(item, t, tree);
      if ok {
        ok := PrintItemSeparator(item.next == null);
        Associate(before, r, ItemSeparator(format, item.next == null));
      }
    }

    /** The loop of print_array. */
    method PrintItems(head: Node?, ghost kids: List<Shape>, ghost tree: set<object>) returns (ok: bool)
      requires Ready() && offset <= length && depth <= NESTING_LIMIT && Outside(tree)
      requires HeadNode(kids) == head && ShowsList(kids) && ReachList(kids) <= tree
      requires PrintableItems(ValuesOf(kids))
      modifies this, heap, buffer
      ensures Moved()
      ensures Extended(ok, RenderItems(ValuesOf(kids), format, old(depth)), CanPrintItems(kids, old(depth)))
      decreases kids, 6
    {
      hide Render, RenderItems, Shows, Printable, PrintableItems, CanPrint, CanPrintItems,
           ItemSeparator, Sized, Accounted,
           Mine, ValueOf, ValuesOf, Prefix;
      ghost var start, all, inner := Prefix(), RenderItems(ValuesOf(kids), format, depth), depth;
      var current := head;
      ghost var rest := kids;
      ok := true;
      while current != null
        invariant HeadNode(rest) == current && ShowsList(rest) && ReachList(rest) <= tree
        invariant PrintableItems(ValuesOf(rest))
        invariant Ready() && offset <= length && depth == inner && Outside(tree) && Moved()
        invariant heap.denials == old(heap.denials) && Cap() == old(Cap())
        invariant old(peak) <= peak <= Max(old(peak), offset + 2)
        invariant Prefix() + RenderItems(ValuesOf(rest), format, inner) == start + all
        invariant offset + |RenderItems(ValuesOf(rest), format, inner)| == old(offset) + |all|
        invariant CanPrintItems(rest, inner) == CanPrintItems(kids, inner)
        decreases rest
      {
        var next := current.next;
        ItemsUnfold(rest, format, inner, Prefix());
        ok := PrintItem(current, rest.head, tree);
        if !ok {
          return;
        }
        current, rest := next, rest.tail;
      }
      NoItemsLeft(Prefix(), format, inner);
    }

    /** The opening bracket. */
    method OpenArray() returns (ok: bool)
      requires Ready() && offset <= length
      modifies this, heap, buffer
      ensures Moved() && (ok <==> old(offset) + 2 <= old(Cap()) && heap.denials == old(heap.denials))
      ensures ok ==> Ready() && offset <= length && Prefix() == old(Prefix()) + [LBRACKET]
      ensures ok ==> offset == old(offset) + 1 && depth == old(depth) + 1
      ensures ok ==> peak == Max(old(peak), offset + 1)
    {
      ghost var before := Prefix();
      ok := Ensure(1);
      if ok {
        buffer[offset] := LBRACKET;
        offset := offset + 1;
        depth := depth + 1;
        assert Prefix() == before + [LBRACKET];
      }
    }

    /** The closing bracket, which offset does not move past. */
    method CloseArray() returns (ok: bool)
      requires Ready() && offset <= length && depth > 0
      modifies this, heap, buffer
      ensures Moved() && (ok <==> old(offset) + 3 <= old(Cap()) && heap.denials == old(heap.denials))
      ensures ok ==> Ready() && Wrote(old(Prefix()) + [RBRACKET]) && offset == old(offset) && depth == old(depth) - 1
      ensures ok ==> peak == Max(old(peak), offset + 3)
    {
      ok := Ensure(2);
      if ok {
        Store([RBRACKET]);
        depth := depth - 1;
      }
    }

    method PrintArray(item: Node, ghost t: Shape, ghost tree: set<object>) returns (ok: bool)
      requires Ready() && offset <= length && depth <= NESTING_LIMIT && Outside(tree) && t.kind == ArrayKind
      requires t.node == item && Shows(t) && Reach(t) <= tree && Printable(ValueOf(t))
      modifies this, heap, buffer
      ensures Moved()
      ensures Appended(ok, Render(ValueOf(t), format, old(depth)), CanPrint(t, old(depth)))
      decreases t, 2
    {
      hide Render, RenderItems, CanPrint, CanPrintItems, Shows, ShowsList, Printable, PrintableItems, Reach,
           ReachList, Sized, Accounted, Mine, ValueOf, ValuesOf, Prefix, Wrote;
      ArrayUnfold(t, format, depth);
      if depth >= NESTING_LIMIT {
        return false;
      }
      ghost var before, body := Prefix(), RenderItems(ValuesOf(t.kids), format, depth + 1);
      KidsAreShown(t);
      ok := OpenArray();
      if ok {
        ok := PrintItems(item.child, t.kids, tree);
        if ok {
          ok := CloseArray();
          Bracketed(before, body);
        }
      }
    }

    // ---- objects -------------------------------------------------------------------------

    /** A run of tabs, without a terminator. */
    method WriteTabs(n: nat)
      requires buffer != null && length <= buffer.Length && offset + n <= length
      modifies this`offset, buffer
      ensures buffer == old(buffer) && offset == old(offset) + n
      ensures Prefix() == old(Prefix()) + Tabs(n)
    {
      ghost var before := Prefix();
      assert before + Tabs(0) == before;
      for i := 0 to n
        invariant offset == old(offset) + i && buffer == old(buffer) && offset <= length
        invariant Prefix() == before + Tabs(i)
      {
        TabsSnoc(i);
        buffer[offset] := TAB;
        offset := offset + 1;
        assert Prefix() == before + Tabs(i) + [TAB];
        Associate(before, Tabs(i), [TAB]);
      }
    }

    /** Bytes without a terminator. */
    method Write(text: bytes)
      requires buffer != null && length <= buffer.Length && offset + |text| <= length
      modifies this`offset, buffer
      ensures buffer == old(buffer) && offset == old(offset) + |text|
      ensures Prefix() == old(Prefix()) + text
    {
      for i := 0 to |text|
        modifies buffer
        invariant buffer[..offset + i] == old(Prefix()) + text[..i]
      {
        buffer[offset + i] := text[i];
      }
      assert text[..|text|] == text;
      offset := offset + |text|;
    }

    method Indent() returns (ok: bool)
      requires Ready() && offset <= length
      modifies this, heap, buffer
      ensures Moved() && Extended(ok, When(format, Tabs(depth)), true) && depth == old(depth)
    {
      hide Tabs;
      ok := true;
      if format {
        ok := Ensure(depth);
        if ok {
          WriteTabs(depth);
        }
      }
    }

    method PrintKey(item: Node, ghost t: Shape) returns (ok: bool)
      requires Ready() && offset <= length && CellIs(item.name, t.name) && (item.name == null || item.name != buffer)
      modifies this, heap, buffer
      ensures Moved() && Extended(ok, Quote(TextOf(t.name)), true)
    {
      hide Quote;
      ghost var before := Prefix();
      QuoteIsNulFree(item.name, t.name);
      ok := PrintStringPtr(item.name, t.name);
      if ok {
        UpdateOffset(before, Quote(TextOf(t.name)));
      }
    }

    method PrintColon() returns (ok: bool)
      requires Ready() && offset <= length
      modifies this, heap, buffer
      ensures Moved() && Extended(ok, [COLON] + When(format, [TAB]), true)
    {
      var text := if format then [COLON, TAB] else [COLON];
      assert text == [COLON] + When(format, [TAB]);
      ok := Ensure(|text|);
      if ok {
        Write(text);
      }
    }

    method PrintLead(item: Node, ghost t: Shape) returns (ok: bool)
      requires Ready() && offset <= length && CellIs(item.name, t.name) && (item.name == null || item.name != buffer)
      modifies this, heap, buffer
      ensures Moved() && Extended(ok, MemberLead(TextOf(t.name), format, old(depth)), true)
    {
      hide Quote, Tabs, Sized;
      ghost var before, tabs, quoted, colon := Prefix(), When(format, Tabs(depth)), Quote(TextOf(t.name)),
                                               [COLON] + When(format, [TAB]);
      assert MemberLead(TextOf(t.name), format, depth) == tabs + quoted + colon;
      ok := Indent();
      if ok {
        ok := PrintKey(item, t);
        Associate(before, tabs, quoted);
        if ok {
          ok := PrintColon();
          Associate(before, tabs + quoted, colon);
        }
      }
    }

    method PrintMemberEnd(last: bool) returns (ok: bool)
      requires Ready() && offset <= length
      modifies this, heap, buffer
      ensures Moved() && Extended(ok, MemberEnd(format, last), true)
    {
      var comma := if last then [] else [COMMA];
      var text := comma + if format then [NEWLINE] else [];
      ok := Ensure(|text| + 1);
      if ok {
        Store(text);
        offset := offset + |text|;
      }
    }

    /** One turn of print_object's loop. */
    method PrintMember(item: Node, ghost t: Shape, ghost tree: set<object>) returns (ok: bool)
      requires Ready() && offset <= length && depth <= NESTING_LIMIT && Outside(tree)
      requires t.node == item && Shows(t) && Reach(t) <= tree && Printable(ValueOf(t))
      modifies this, heap, buffer
      ensures Moved()
      ensures Extended(ok, MemberLead(TextOf(t.name), format, old(depth)) + Render(ValueOf(t), format, old(depth))
                           + MemberEnd(format, item.next == null), CanPrint(t, old(depth)))
      decreases t, 5
    {
      hide Render, Shows, Printable, CanPrint, MemberLead, MemberEnd, Reach, Sized;
      ghost var before, lead, r := Prefix(), MemberLead(TextOf(t.name), format, depth),
          Render(ValueOf(t), format, depth);
      NameIsShown(t);
      ok := PrintLead(item, t);
      if ok {
        ok := PrintInner(item, t, tree);
        Associate(before, lead, r);
        if ok {
          ok := PrintMemberEnd(item.next == null);
          Associate(before, lead + r, MemberEnd(format, item.next == null));
        }
      }
    }

    /** The loop of print_object. */
    method PrintMembers(head: Node?, ghost kids: List<Shape>, ghost tree: set<object>) returns (ok: bool)
      requires Ready() && offset <= length && depth <= NESTING_LIMIT && Outside(tree)
      requires HeadNode(kids) == head && ShowsList(kids) && ReachList(kids) <= tree
      requires PrintableMembers(MembersOf(kids))
      modifies this, heap, buffer
      ensures Moved()
      ensures Extended(ok, RenderMembers(MembersOf(kids), format, old(depth)), CanPrintMembers(kids, old(depth)))
      decreases kids, 6
    {
      hide Render, RenderMembers, Shows, Printable, PrintableMembers, CanPrint, CanPrintMembers, MemberLead, MemberEnd,
           Sized, Accounted, Mine, ValueOf, MembersOf, Prefix;
      ghost var start, all, inner := Prefix(), RenderMembers(MembersOf(kids), format, depth), depth;
      var current := head;
      ghost var rest := kids;
      ok := true;
      while current != null
        invariant HeadNode(rest) == current && ShowsList(rest) && ReachList(rest) <= tree
        invariant PrintableMembers(MembersOf(rest))
        invariant Ready() && offset <= length && depth == inner && Outside(tree) && Moved()
        invariant heap.denials == old(heap.denials) && Cap() == old(Cap())
        invariant old(peak) <= peak <= Max(old(peak), offset + 2)
        invariant Prefix() + RenderMembers(MembersOf(rest), format, inner) == start + all
        invariant offset + |RenderMembers(MembersOf(rest), format, inner)| == old(offset) + |all|
        invariant CanPrintMembers(rest, inner) == CanPrintMembers(kids, inner)
        decreases rest
      {
        var next := current.next;
        MembersUnfold(rest, format, inner, Prefix());
        ok := PrintMember(current, rest.head, tree);
        if !ok {
          return;
        }
        current, rest := next, rest.tail;
      }
      NoMembersLeft(Prefix(), format, inner);
    }

    method OpenObject() returns (ok: bool)
      requires Ready() && offset <= length
      modifies this, heap, buffer
      ensures Moved() && (ok <==> old(offset) + (if format then 4 else 3) <= old(Cap())
                                  && heap.denials == old(heap.denials))
      ensures ok ==> Ready() && offset <= length && Prefix() == old(Prefix()) + ([LBRACE] + When(format, [NEWLINE]))
      ensures ok ==> offset == old(offset) + (if format then 2 else 1) && depth == old(depth) + 1
      ensures ok ==> peak == Max(old(peak), offset + 2)
    {
      var text := if format then [LBRACE, NEWLINE] else [LBRACE];
      assert text == [LBRACE] + When(format, [NEWLINE]);
      ok := Ensure(|text| + 1);
      if ok {
        depth := depth + 1;
        Write(text);
      }
    }

    method CloseObject() returns (ok: bool)
      requires Ready() && offset <= length && depth > 0
      modifies this, heap, buffer
      ensures Moved() && (ok <==> old(offset) + (if format then old(depth) + 2 else 3) <= old(Cap())
                                  && heap.denials == old(heap.denials))
      ensures ok ==> Ready() && Wrote(old(Prefix()) + (When(format, Tabs(old(depth) - 1)) + [RBRACE]))
      ensures ok ==> offset >= old(offset) && depth == old(depth) - 1
      ensures ok ==> peak == Max(old(peak), old(offset) + (if format then old(depth) + 2 else 3))
    {
      hide Tabs;
      ghost var before := Prefix();
      ok := Ensure(if format then depth + 1 else 2);
      if ok {
        if format {
          WriteTabs(depth - 1);
        }
        Store([RBRACE]);
        Associate(before, When(format, Tabs(depth - 1)), [RBRACE]);
        depth := depth - 1;
      }
    }

    /** The members and the closing brace. */
    method PrintMembersAndClose(head: Node?, ghost kids: List<Shape>, ghost tree: set<object>) returns (ok: bool)
      requires Ready() && offset <= length && 0 < depth <= NESTING_LIMIT && Outside(tree)
      requires HeadNode(kids) == head && ShowsList(kids) && ReachList(kids) <= tree
      requires PrintableMembers(MembersOf(kids))
      modifies this, heap, buffer
      ensures Moved()
      ensures var members, inner, limit := MembersOf(kids), old(depth), old(Cap());
              var r := RenderMembers(members, format, inner) + (When(format, Tabs(inner - 1)) + [RBRACE]);
              && (ok <==> CanPrintMembers(kids, inner) && old(offset) + |r| + 2 <= limit
                          && heap.denials == old(heap.denials))
              && (ok ==> Ready() && Wrote(old(Prefix()) + r) && old(offset) <= offset && depth == inner - 1
                         && peak == Max(old(peak), old(offset) + |r| + 2))
      decreases kids, 7
    {
      hide RenderMembers, CanPrintMembers, ShowsList, PrintableMembers, ReachList, Sized, Accounted, Mine, MembersOf,
           Tabs, Prefix, Wrote;
      ghost var before, body := Prefix(), RenderMembers(MembersOf(kids), format, depth);
      ghost var tabs := When(format, Tabs(depth - 1));
      ok := PrintMembers(head, kids, tree);
      if ok {
        ok := CloseObject();
        Associate(before, body, tabs + [RBRACE]);
      }
    }

    method PrintObject(item: Node, ghost t: Shape, ghost tree: set<object>) returns (ok: bool)
      requires Ready() && offset <= length && depth <= NESTING_LIMIT && Outside(tree) && t.kind == ObjectKind
      requires t.node == item && Shows(t) && Reach(t) <= tree && Printable(ValueOf(t))
      modifies this, heap, buffer
      ensures Moved()
      ensures Appended(ok, Render(ValueOf(t), format, old(depth)), CanPrint(t, old(depth)))
      decreases t, 2
    {
      hide Render, RenderMembers, CanPrint, CanPrintMembers, Shows, ShowsList, Printable, PrintableMembers, Reach,
           ReachList, Sized, Accounted, Mine, ValueOf, MembersOf, Tabs, When, Wrote;
      ObjectUnfold(t, format, depth);
      if depth >= NESTING_LIMIT {
        return false;
      }
      KidsAreShown(t);
      Braced(Prefix(), When(format, [NEWLINE]), RenderMembers(MembersOf(t.kids), format, depth + 1),
             When(format, Tabs(depth)));
      ok := OpenObject();
      if ok {
        ok := PrintMembersAndClose(item.child, t.kids, tree);
      }
    }
  }

  // ---- the entry points ------------------------------------------------------------------

  /** The trees a caller can hand over: a printable one, or none for a null pointer. */
  ghost predicate Printing(item: Node?, root: List<Shape>)
    reads ReachList(root)
  {
    HeadNode(root) == item && (item != null ==> Shows(root.head) && Printable(ValueOf(root.head)))
  }

  function TextOfRoot(root: List<Shape>, format: bool): bytes {
    if root.Nil? then [] else Render(ValueOf(root.head), format, 0)
  }

  predicate RootFits(root: List<Shape>) {
    root.Cons? && Nesting(ValueOf(root.head)) <= 1000 && Typed(root.head)
  }

  /** print_value on a new print buffer. */
  method PrintRoot(p: PrintBuffer, item: Node?, ghost root: List<Shape>, ghost tree: set<object>) returns (ok: bool)
    requires p.Ready() && p.offset == 0 && p.depth == 0 && p.peak == 0 && p.Outside(tree)
    requires Printing(item, root) && ReachList(root) <= tree
    modifies p, p.heap, p.buffer
    ensures p.Moved()
    ensures ok <==> RootFits(root) && |TextOfRoot(root, p.format)| + 2 <= old(p.Cap())
                    && p.heap.denials == old(p.heap.denials)
    ensures ok ==> p.Ready() && p.Wrote(TextOfRoot(root, p.format)) && NUL !in TextOfRoot(root, p.format)
    ensures ok ==> p.peak == |TextOfRoot(root, p.format)| + 2
  {
    hide Render, Shows, Printable, ValueOf, Nesting, Typed;
    ok := false;
    if item != null {
      ghost var text := TextOfRoot(root, p.format);
      RenderIsNulFree(ValueOf(root.head), p.format, 0);
      assert p.Prefix() + text == text;
      ok := p.PrintValue(item, root.head, tree);
    }
  }

  /** The end of print: a buffer of exactly the right size. */
  method Shrink(p: PrintBuffer, ghost text: bytes) returns (printed: array?<byte>)
    requires p.Ready() && !p.noalloc && p.Wrote(text) && p.offset == |text|
    modifies p.heap
    ensures p.heap.denials >= old(p.heap.denials) && (printed != null <==> p.heap.denials == old(p.heap.denials))
    ensures printed != null ==> fresh(printed) && printed[..] == text + [NUL]
    ensures p.heap.live == if printed == null then p.rest else p.rest + {printed}
  {
    var n := p.offset + 1;
    printed := p.heap.NewBytes(n);
    if printed == null {
      p.heap.Free(p.buffer);
      return;
    }
    if p.hasRealloc {
      Copy(printed, 0, p.buffer, 0, n);
    } else {
      Copy(printed, 0, p.buffer, 0, Min(p.length, n));
      printed[p.offset] := NUL;
    }
    assert printed[..] == p.buffer[0..n] == text + [NUL];
    p.heap.Free(p.buffer);
  }

  /** cJSON_Print and cJSON_PrintUnformatted. The text of n bytes is printed exactly when
      its arrays and objects are not nested too deeply, n + 2 <= INT_MAX, and no allocation
      is refused. growths is how often the buffer of 256 bytes has been replaced. */
  method Print(item: Node?, format: bool, hasRealloc: bool, heap: Allocator, ghost root: List<Shape>,
               ghost tree: set<object>)
    returns (printed: array?<byte>, ghost growths: nat)
    requires Printing(item, root) && ReachList(root) <= tree && heap !in tree
    modifies heap
    ensures heap.denials >= old(heap.denials)
    ensures var n := |TextOfRoot(root, format)|;
      && (printed != null <==> RootFits(root) && n + 2 <= 0x7FFF_FFFF && heap.denials == old(heap.denials))
      && (printed != null && growths > 0 ==> 256 * Pow2(growths) < 2 * (n + 2))
    ensures printed != null ==> fresh(printed) && printed[..] == TextOfRoot(root, format) + [NUL]
    ensures heap.live == if printed == null then old(heap.live) else old(heap.live) + {printed}
  {
    hide TextOfRoot, RootFits, Printing, Pow2;
    printed, growths := null, 0;
    var size := 256;
    var buffer := heap.NewBytes(size);
    if buffer == null {
      return;
    }
    var p := new PrintBuffer(buffer, size, false, format, hasRealloc, heap);
    NothingGrown(size, p.peak);
    var ok := PrintRoot(p, item, root, tree);
    if !ok {
      if p.buffer != null {
        heap.Free(p.buffer);
      }
      return;
    }
    ghost var text := TextOfRoot(root, format);
    assert [] + text == text;
    p.UpdateOffset([], text);
    growths := p.growths;
    DoubledInTime(size, p.length, p.peak, p.growths);
    printed := Shrink(p, text);
  }

  lemma NothingGrown(size: nat, peak: nat)
    ensures Sized(size, size, peak, 0)
  {
  }

  // Unfolding the multiplication by induction on growths would not end.
  lemma {:induction false} DoubledInTime(initial: nat, length: nat, peak: nat, growths: nat)
    requires Sized(initial, length, peak, growths)
    ensures growths > 0 ==> initial * Pow2(growths) < 2 * peak
  {
    if growths > 0 {
      assert initial * Pow2(growths) == 2 * (initial * Pow2(growths - 1));
    }
  }

  /** ensure's first check lets a buffer of this length through. */
  predicate PassesCheck(length: nat, offset: nat) {
    !(length > 0 && offset >= length)
  }

  /** The manual copy takes the bytes up to offset and one more. */
  predicate CopyStaysInside(length: nat, offset: nat) {
    offset + 1 <= length
  }

  /** Behind that check, the manual copy stays inside the old buffer if and only if the
      buffer is not empty. */
  lemma CopyNeedsAByte(length: nat, offset: nat)
    requires PassesCheck(length, offset)
    ensures CopyStaysInside(length, offset) <==> length > 0
  {
  }

  /** An empty buffer passes the check, and one byte of it would be copied. */
  lemma EmptyBufferIsNotCopied()
    ensures PassesCheck(0, 0) && !CopyStaysInside(0, 0)
  {
  }

  /** cJSON_PrintBuffered: the buffer is handed over as it is. */
  method PrintBuffered(item: Node?, prebuffer: int, format: bool, hasRealloc: bool, heap: Allocator,
                       ghost root: List<Shape>, ghost tree: set<object>)
    returns (printed: array?<byte>)
    requires Printing(item, root) && ReachList(root) <= tree && heap !in tree
    requires prebuffer <= INT_MAX && (prebuffer == 0 ==> hasRealloc)
    modifies heap
    ensures heap.denials >= old(heap.denials)
    ensures var text := TextOfRoot(root, format);
      && (printed != null <==> 0 <= prebuffer && RootFits(root) && |text| + 2 <= 0x7FFF_FFFF
                               && heap.denials == old(heap.denials))
      && (printed != null ==> fresh(printed) && |text| < printed.Length && printed[..|text| + 1] == text + [NUL])
    ensures heap.live == if printed == null then old(heap.live) else old(heap.live) + {printed}
  {
    hide TextOfRoot, RootFits, Printing;
    printed := null;
    if prebuffer < 0 {
      return;
    }
    var buffer := heap.NewBytes(prebuffer);
    if buffer == null {
      return;
    }
    var p := new PrintBuffer(buffer, prebuffer, false, format, hasRealloc, heap);
    NothingGrown(prebuffer, p.peak);
    var ok := PrintRoot(p, item, root, tree);
    if ok {
      printed := p.buffer;
    } else if p.buffer != null {
      heap.Free(p.buffer);
    }
  }

  /** cJSON_PrintPreallocated succeeds exactly when the text and two more bytes fit. */
  method PrintPreallocated(item: Node?, buffer: array?<byte>, length: int, format: bool, heap: Allocator,
                           ghost root: List<Shape>, ghost tree: set<object>)
    returns (ok: bool)
    requires Printing(item, root) && ReachList(root) <= tree && heap !in tree && length <= INT_MAX
    requires buffer != null ==> length <= buffer.Length && buffer !in tree
    modifies heap, buffer
    ensures ok <==> buffer != null && RootFits(root) && |TextOfRoot(root, format)| + 2 <= length
    ensures ok ==> var text := TextOfRoot(root, format); buffer[..|text| + 1] == text + [NUL]
    ensures heap.live == old(heap.live)
  {
    hide TextOfRoot, RootFits, Printing;
    if length < 0 || buffer == null {
      return false;
    }
    var p := new PrintBuffer(buffer, length, true, format, false, heap);
    ok := PrintRoot(p, item, root, tree);
  }

  lemma ArrayUnfold(t: Shape, fmt: bool, depth: nat)
    requires t.kind == ArrayKind
    ensures Render(ValueOf(t), fmt, depth) == [LBRACKET] + RenderItems(ValuesOf(t.kids), fmt, depth + 1) + [RBRACKET]
    ensures CanPrint(t, depth) == (depth < NESTING_LIMIT && CanPrintItems(t.kids, depth + 1))
  {
  }

  lemma ObjectUnfold(t: Shape, fmt: bool, depth: nat)
    requires t.kind == ObjectKind
    ensures Render(ValueOf(t), fmt, depth)
         == [LBRACE] + When(fmt, [NEWLINE]) + RenderMembers(MembersOf(t.kids), fmt, depth + 1)
            + When(fmt, Tabs(depth)) + [RBRACE]
    ensures |Render(ValueOf(t), fmt, depth)|
         == |RenderMembers(MembersOf(t.kids), fmt, depth + 1)| + if fmt then depth + 3 else 2
    ensures CanPrint(t, depth) == (depth < NESTING_LIMIT && CanPrintMembers(t.kids, depth + 1))
  {
  }

  lemma {:induction false} TabsSnoc(n: nat)
    ensures Tabs(n) + [TAB] == Tabs(n + 1)
  {
    if n > 0 {
      TabsSnoc(n - 1);
    }
  }

  lemma QuoteIsNulFree(p: array?<byte>, c: Option<Cell>)
    requires CellIs(p, c)
    ensures NUL !in Quote(TextOf(c))
  {
    EscapeIsNulFree(TextOf(c));
  }

  lemma NameIsShown(t: Shape)
    requires Shows(t)
    ensures CellIs(t.node.name, t.name) && (t.node.name != null ==> t.node.name in Reach(t))
  {
  }

  lemma Braced(before: bytes, nl: bytes, body: bytes, tabs: bytes)
    ensures before + ([LBRACE] + nl) + (body + (tabs + [RBRACE])) == before + ([LBRACE] + nl + body + tabs + [RBRACE])
    ensures |body + (tabs + [RBRACE])| == |body| + |tabs| + 1
  {
  }

  lemma NoMembersLeft(s: bytes, fmt: bool, depth: nat)
    ensures s + RenderMembers(MembersOf(Nil), fmt, depth) == s && RenderMembers(MembersOf(Nil), fmt, depth) == []
    ensures depth <= NESTING_LIMIT ==> CanPrintMembers(Nil, depth)
  {
  }

  lemma MembersUnfold(rest: List<Shape>, fmt: bool, depth: nat, before: bytes)
    requires rest.Cons?
    ensures var v, key, last := ValueOf(rest.head), TextOf(rest.head.name), rest.tail.Nil?;
            var r := MemberLead(key, fmt, depth) + Render(v, fmt, depth) + MemberEnd(fmt, last);
            && before + RenderMembers(MembersOf(rest), fmt, depth)
            == (before + r) + RenderMembers(MembersOf(rest.tail), fmt, depth)
            && CanPrintMembers(rest, depth) == (CanPrint(rest.head, depth) && CanPrintMembers(rest.tail, depth))
            && |RenderMembers(MembersOf(rest), fmt, depth)| == |r| + |RenderMembers(MembersOf(rest.tail), fmt, depth)|
    ensures PrintableMembers(MembersOf(rest)) ==>
              Printable(ValueOf(rest.head)) && PrintableMembers(MembersOf(rest.tail))
  {
    hide MemberLead, MemberEnd, Render;
    var v, key, last := ValueOf(rest.head), TextOf(rest.head.name), rest.tail.Nil?;
    var r := MemberLead(key, fmt, depth) + Render(v, fmt, depth) + MemberEnd(fmt, last);
    assert MembersOf(rest.tail).Nil? == last;
    Associate(before, r, RenderMembers(MembersOf(rest.tail), fmt, depth));
  }

  lemma KidsAreShown(t: Shape)
    requires Shows(t) && Printable(ValueOf(t))
    ensures t.node.child == HeadNode(t.kids) && ShowsList(t.kids) && ReachList(t.kids) <= Reach(t)
    ensures t.kind == ArrayKind ==> PrintableItems(ValuesOf(t.kids))
    ensures t.kind == ObjectKind ==> PrintableMembers(MembersOf(t.kids))
  {
  }

  lemma Bracketed(before: bytes, body: bytes)
    ensures before + [LBRACKET] + body + [RBRACKET] == before + ([LBRACKET] + body + [RBRACKET])
  {
  }

  lemma NoItemsLeft(s: bytes, fmt: bool, depth: nat)
    ensures s + RenderItems(ValuesOf(Nil), fmt, depth) == s && RenderItems(ValuesOf(Nil), fmt, depth) == []
    ensures depth <= NESTING_LIMIT ==> CanPrintItems(Nil, depth)
  {
  }

  lemma ItemsUnfold(rest: List<Shape>, fmt: bool, depth: nat, before: bytes)
    requires rest.Cons?
    ensures var v, last := ValueOf(rest.head), rest.tail.Nil?;
            var r := Render(v, fmt, depth) + ItemSeparator(fmt, last);
            && before + RenderItems(ValuesOf(rest), fmt, depth)
            == (before + r) + RenderItems(ValuesOf(rest.tail), fmt, depth)
            && CanPrintItems(rest, depth) == (CanPrint(rest.head, depth) && CanPrintItems(rest.tail, depth))
            && |RenderItems(ValuesOf(rest), fmt, depth)| == |r| + |RenderItems(ValuesOf(rest.tail), fmt, depth)|
    ensures PrintableItems(ValuesOf(rest)) ==> Printable(ValueOf(rest.head)) && PrintableItems(ValuesOf(rest.tail))
  {
    var v, last := ValueOf(rest.head), rest.tail.Nil?;
    var r := Render(v, fmt, depth) + ItemSeparator(fmt, last);
    Associate(before, r, RenderItems(ValuesOf(rest.tail), fmt, depth));
    assert ValuesOf(rest.tail).Nil? == last;
  }

  lemma Associate(a: bytes, b: bytes, c: bytes)
    ensures (a + b) + c == a + (b + c)
  {
  }

  lemma QuotedBehind(before: bytes, s: bytes, text: bytes)
    requires text == before + [QUOTE] + Escape(s) + [QUOTE]
    ensures text == before + Quote(s)
  {
  }

  lemma EscapeNothing(s: bytes)
    ensures Escape([]) == [] && s[..0] == []
  {
  }

  lemma EscapeGrows(s: bytes, i: nat)
    requires i < |s|
    ensures Escape(s[..i + 1]) == Escape(s[..i]) + EscapeByte(s[i])
    ensures |Escape(s[..i + 1])| <= |Escape(s)|
  {
    assert s[..i + 1] == s[..i] + [s[i]];
    EscapeAppend(s[..i], [s[i]]);
    assert Escape([s[i]]) == EscapeByte(s[i]) + Escape([]);
    assert s == s[..i + 1] + s[i + 1..];
    EscapeAppend(s[..i + 1], s[i + 1..]);
  }
}
