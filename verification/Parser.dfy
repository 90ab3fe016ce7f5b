/** The parser of cJSON.c: a cursor over a read-only buffer that builds nodes. Each
    method is proved against the grammar functions of module Json, for every input and
    every pattern of refused allocations. */
module Parser {
  import opened Bytes
  import opened Options
  import opened Lists
  import opened NumberCodec
  import opened StringCodec
  import opened Json
  import opened Heap
  import opened Construction
  import Utf8

  /** The outcome of a method against what the grammar says: success is the reading r,
      failure without a refused allocation means that there is none. */
  predicate Agrees<T(==)>(r: Parsed<T>, ok: bool, v: T, next: nat, denied: bool) {
    if ok then r == Good(v, next) && !denied else denied || r == Bad
  }

  /** Scan(c, i) when a pass from an earlier start has already counted skipped pairs. */
  function Counted(s: Option<Span>, skipped: nat): Option<Span> {
    match s
    case None => None
    case Some(Span(close, more)) => Some(Span(close, skipped + more))
  }

  lemma PrependNothing(s: bytes)
    ensures Prepend(s, Some([])) == Some(s)
  {
    assert s + [] == s;
  }

  lemma PrependNone(s: bytes)
    ensures Prepend(s, None) == None
  {
  }

  lemma UnescapeTurn(c: bytes, i: nat, end: nat)
    requires end < |c|
    ensures i >= end ==> Unescape(c, i, end) == Some([])
    ensures i < end && Step(c, i, end).Some? ==>
      var p := Step(c, i, end).value;
      Unescape(c, i, end) == Prepend(p.out, Unescape(c, i + p.used, end))
    ensures i < end && Step(c, i, end).None? ==> Unescape(c, i, end) == None
  {
  }

  /** Where the second pass stands: i input bytes read, o output bytes written, and sk
      of the pairs that the first pass counted still ahead. */
  ghost predicate HasRoom(c: bytes, start: nat, end: nat, i: nat, o: nat, sk: nat, skipped: nat) {
    && start <= i && end < |c|
    && (i < end ==> InStep(c, i, end, sk))
    && (i >= end ==> sk == 0)
    && o + skipped <= (if i <= end then i else end) - start + sk
  }

  /** One step has room to write, and keeps room for what follows. */
  lemma StepHasRoom(c: bytes, start: nat, end: nat, i: nat, o: nat, sk: nat, skipped: nat)
    returns (sk': nat)
    requires HasRoom(c, start, end, i, o, sk, skipped) && i < end && Step(c, i, end).Some?
    ensures var p := Step(c, i, end).value;
            && HasRoom(c, start, end, i + p.used, o + |p.out|, sk', skipped)
            && o + |p.out| + skipped <= end - start
  {
    var p := Step(c, i, end).value;
    sk' := StepKeepsRoom(c, i, end, sk, p.used, |p.out|);
    var i' := i + p.used;
    assert i' < end ==> sk' <= end - i';
  }

  lemma StartHasRoom(c: bytes, start: nat, end: nat, skipped: nat)
    requires start <= |c| && Scan(c, start) == Some(Span(end, skipped))
    ensures HasRoom(c, start, end, start, 0, skipped, skipped)
    ensures start + 2 * skipped <= end
  {
  }

  /** A node that no value has been stored in yet. */
  predicate Bare(t: Shape) {
    t.str == None && t.kids == Nil && !t.lent && !t.constName && !t.open
  }

  /** t is the bare tree t0 after a value has been stored in its node. */
  predicate Fills(t: Shape, t0: Shape) {
    t.node == t0.node && t.name == t0.name && Owned(t0) <= Owned(t) && Apart(t) && Unshared(t)
  }

  lemma LeafFills(t0: Shape, t: Shape)
    requires Bare(t0) && t.kids == Nil && !t.lent && !t.constName && !t.open && t.kind != Invalid
    requires t.node == t0.node && t.name == t0.name && Buffers(t.str) !! Owned(t0)
    requires (t.kind == StringKind ==> t.str.Some?) && (t.kind == TrueKind ==> t.whole == 1)
    ensures Fills(t, t0) && Owned(t) == Owned(t0) + Buffers(t.str)
  {
    assert Owned(t0) == {t0.node} + Buffers(t0.name);
  }

  /** The success label of parse_array and parse_object. */
  method StoreChildren(item: Node, kind: Kind, head: Node?, current: Node?, ghost t0: Shape, ghost done: List<Shape>,
                       ghost live: set<object>)
    returns (ghost t: Shape)
    requires t0.node == item && Bare(t0) && Holds(t0) && (kind == ArrayKind || kind == ObjectKind)
    requires Built(done, head, current) && UnsharedList(done) && (kind == ObjectKind ==> AllNamed(done))
    requires Owned(t0) !! OwnedList(done) && Owned(t0) + OwnedList(done) <= live
    modifies item`kind, item`child, OwnedList(done)
    ensures t == t0.(kind := kind, kids := RevOnto(done, Nil)) && Holds(t) && Fills(t, t0)
    ensures Owned(t) == Owned(t0) + OwnedList(done)
    ensures ValuesOf(t.kids) == RevOnto(ValuesOf(done), Nil) && MembersOf(t.kids) == RevOnto(MembersOf(done), Nil)
  {
    EndsAreOwned(done);
    Close(head, current, done, live);
    ValuesInOrder(done, Nil);
    UnsharedInOrder(done, Nil);
    t := t0.(kind := kind, kids := RevOnto(done, Nil));
    Attach(item, kind, head, t0, t);
  }

  method Attach(item: Node, kind: Kind, head: Node?, ghost t0: Shape, ghost t: Shape)
    requires t0.node == item && Bare(t0) && Holds(t0) && (kind == ArrayKind || kind == ObjectKind)
    requires t == t0.(kind := kind, kids := t.kids) && Owned(t0) !! OwnedList(t.kids)
    requires HeadNode(t.kids) == head && Chained(t.kids, LastNode(t.kids))
    requires ApartList(t.kids) && UnsharedList(t.kids) && (kind == ObjectKind ==> AllNamed(t.kids))
    modifies item`kind, item`child
    ensures Holds(t) && Fills(t, t0) && Owned(t) == Owned(t0) + OwnedList(t.kids)
  {
    assert Owned(t0) == {t0.node} + Buffers(t0.name);
    item.kind := kind;
    item.child := head;
  }

  /** parse_object's swap of string and valuestring after a key has been parsed. */
  method TakeName(node: Node, ghost t0: Shape, ghost cell: Option<Cell>) returns (ghost t: Shape)
    requires t0.node == node && Bare(t0) && t0.name == None && node.kind == StringKind && node.child == null
    requires node.valuedouble == t0.num && node.valueint == t0.whole && !node.isReference && !node.constName
             && CellIs(node.valuestring, cell)
    modifies node`name, node`valuestring
    ensures t == t0.(kind := StringKind, name := cell)
    ensures Bare(t) && Holds(t) && Apart(t) && Owned(t) == Owned(t0) + Buffers(cell)
  {
    node.name := node.valuestring;
    node.valuestring := null;
    t := t0.(kind := StringKind, name := cell);
    LeafIsHeld(t0);
    LeafIsHeld(t);
  }

  class ParseBuffer {
    const content: bytes
    const heap: Allocator
    ghost const lex: Lexer
    var offset: nat
    var depth: nat

    constructor (content: bytes, heap: Allocator)
      ensures this.content == content && this.heap == heap && lex == CJSON
      ensures offset == 0 && depth == 0
    {
      this.content, this.heap, lex := content, heap, CJSON;
      offset, depth := 0, 0;
    }

    predicate CanAccess(index: nat)
      reads this
    {
      offset + index < |content|
    }

    method SkipWhitespace()
      requires offset <= |content|
      modifies this`offset
      ensures offset == SkipWs(content, old(offset))
    {
      if !CanAccess(0) {
        return;
      }
      while CanAccess(0) && content[offset] <= SPACE
        invariant old(offset) <= offset <= |content|
        invariant SkipWs(content, old(offset)) == if CanAccess(0) then SkipWs(content, offset) else |content| - 1
        decreases |content| - offset
      {
        offset := offset + 1;
      }
      if offset == |content| {
        offset := offset - 1;
      }
    }

    method SkipUtf8Bom()
      requires offset == 0
      modifies this`offset
      ensures offset == SkipBom(content)
    {
      if CanAccess(4) && content[0] == 0xEF && content[1] == 0xBB && content[2] == 0xBF {
        offset := offset + 3;
      }
    }

    /** utf16_literal_to_utf8: decodes the \u literal at i to output, or returns 0. */
    method Utf16LiteralToUtf8(i: nat, end: nat, output: array<byte>, o: nat) returns (sequenceLength: nat, length: nat)
      requires i <= end <= |content| && o <= output.Length
      requires var r := Utf16Literal(content, i, end); r.Some? ==> o + |r.value.out| <= output.Length
      modifies output
      ensures output[..o] == old(output[..o])
      ensures match Utf16Literal(content, i, end)
              case None => sequenceLength == 0
              case Some(p) => sequenceLength == p.used && length == |p.out| && output[o..o + length] == p.out
    {
      hide Utf8.Encode, Utf8.CodeUnit, Utf8.Combine;
      sequenceLength, length := 0, 0;
      if end - i < 6 {
        return;
      }
      var first := Utf8.ParseHex4(content, i + 2);
      if Utf8.IsLow(first) {
        return;
      }
      var codepoint := first;
      if Utf8.IsHigh(first) {
        var second := i + 6;
        if end - second < 6 {
          return;
        }
        if content[second] != BACKSLASH || content[second + 1] != LOWER_U {
          return;
        }
        var secondCode := Utf8.ParseHex4(content, second + 2);
        if !Utf8.IsLow(secondCode) {
          return;
        }
        sequenceLength, codepoint := 12, Utf8.Combine(first, secondCode);
      } else {
        sequenceLength := 6;
      }
      length := Utf8.EncodeInto(codepoint, output, o);
    }

    /** One turn of parse_string's decode loop. */
    method DecodeStep(i: nat, end: nat, output: array<byte>, o: nat) returns (used: nat, length: nat)
      requires i < end < |content| && o <= output.Length
      requires var r := Step(content, i, end); r.Some? ==> o + |r.value.out| <= output.Length
      modifies output
      ensures match Step(content, i, end)
              case None => used == 0
              case Some(p) => used == p.used && length == |p.out| && output[..o + length] == old(output[..o]) + p.out
    {
      used, length := 2, 1;
      if content[i] != BACKSLASH {
        output[o] := content[i];
        used := 1;
      } else {
        var letter := content[i + 1];
        if letter == LOWER_B {
          output[o] := BACKSPACE;
        } else if letter == LOWER_F {
          output[o] := FORMFEED;
        } else if letter == LOWER_N {
          output[o] := NEWLINE;
        } else if letter == LOWER_R {
          output[o] := RETURN;
        } else if letter == LOWER_T {
          output[o] := TAB;
        } else if letter == QUOTE || letter == BACKSLASH || letter == SLASH {
          output[o] := letter;
        } else if letter == LOWER_U {
          used, length := Utf16LiteralToUtf8(i, end, output, o);
        } else {
          used := 0;
        }
      }
    }

    /** The first pass of parse_string. */
    method FindClosingQuote() returns (ok: bool, end: nat, skipped: nat)
      requires CanAccess(0)
      ensures match Scan(content, offset + 1)
              case None => !ok
              case Some(s) => ok && s == Span(end, skipped)
    {
      end, skipped := offset + 1, 0;
      while end < |content| && content[end] != QUOTE
        invariant offset < end <= |content|
        invariant Scan(content, offset + 1) == Counted(Scan(content, end), skipped)
      {
        if content[end] == BACKSLASH {
          if end + 1 >= |content| {
            return false, end, skipped;
          }
          skipped := skipped + 1;
          end := end + 1;
        }
        end := end + 1;
      }
      ok := end < |content|;
    }

    /** The second pass of parse_string: writes at most output.Length - 1 bytes before the
        terminator, whatever the input. i is where decoding stopped. */
    method Decode(end: nat, output: array<byte>, ghost skipped: nat) returns (ok: bool, i: nat, ghost text: bytes)
      requires CanAccess(0) && Scan(content, offset + 1) == Some(Span(end, skipped))
      requires output.Length + skipped == end - offset + 1
      modifies output
      ensures offset < i <= |content|
      ensures match Unescape(content, offset + 1, end)
              case None => !ok
              case Some(s) => ok && text == s && |text| < output.Length && output[..|text|] == text
                              && output[|text|] == NUL
    {
      hide Scan, Step, InStep, HasRoom, Prepend, Unescape;
      var start := offset + 1;
      i := start;
      var o: nat := 0;
      text := [];
      ghost var sk: nat := skipped;
      StartHasRoom(content, start, end, skipped);
      PrependTwice([], [], Unescape(content, start, end));
      while i < end
        invariant start <= i <= |content| && HasRoom(content, start, end, i, o, sk, skipped)
        invariant o + skipped <= end - start && text == output[..o]
        invariant Unescape(content, start, end) == Prepend(text, Unescape(content, i, end))
        decreases |content| - i
      {
        ghost var sk': nat := sk;
        if Step(content, i, end).Some? {
          sk' := StepHasRoom(content, start, end, i, o, sk, skipped);
        }
        var used, length := DecodeStep(i, end, output, o);
        UnescapeTurn(content, i, end);
        if used == 0 {
          PrependNone(text);
          return false, i, text;
        }
        PrependTwice(text, Step(content, i, end).value.out, Unescape(content, i + used, end));
        i, o, sk := i + used, o + length, sk';
        text := output[..o];
      }
      output[o] := NUL;
      UnescapeTurn(content, i, end);
      PrependNothing(text);
      ok := true;
    }

    /** The first loop of parse_number. */
    method NumberStringLength() returns (length: nat)
      requires offset <= |content|
      ensures length == |NumberRun(content, offset)|
    {
      length := 0;
      while CanAccess(length) && IsNumberChar(content[offset + length])
        invariant offset + length <= |content|
        invariant |NumberRun(content, offset)| == length + |NumberRun(content, offset + length)|
        decreases |content| - length
      {
        length := length + 1;
      }
    }

    /** The temporary copy of the run, terminated. */
    method CopyRun(length: nat) returns (numberString: array?<byte>)
      requires offset + length <= |content|
      modifies heap
      ensures numberString == null ==> heap.denials > old(heap.denials) && heap.live == old(heap.live)
      ensures numberString != null ==> heap.denials == old(heap.denials) && fresh(numberString)
      ensures numberString != null ==> heap.live == old(heap.live) + {numberString} && numberString.Length == length + 1
      ensures numberString != null ==> numberString[..length] == content[offset..offset + length]
    {
      numberString := heap.NewBytes(length + 1);
      if numberString == null {
        return;
      }
      for i := 0 to length
        invariant numberString[..i] == content[offset..offset + i]
        modifies numberString
      {
        numberString[i] := content[offset + i];
      }
      numberString[length] := NUL;
    }

    /** parse_number. The copy of the run in a buffer of its own is freed either way. */
    method ParseNumber(item: Node) returns (ok: bool)
      requires offset <= |content| && ReadsTokens(lex)
      modifies this`offset, heap, item`kind, item`valueint, item`valuedouble
      ensures offset <= |content| && heap.denials >= old(heap.denials) && heap.live == old(heap.live)
      ensures Agrees(lex.num(content, old(offset)), ok, Number(item.valuedouble), offset,
                     heap.denials > old(heap.denials))
      ensures ok ==> item.kind == NumberKind && item.valueint == ToInt(item.valuedouble)
      ensures !ok ==> item.kind == old(item.kind) && item.valueint == old(item.valueint)
                      && item.valuedouble == old(item.valuedouble)
    {
      hide Strtod, NumberRun, ReadsTokens, ToInt;
      TokensAreLexed(lex, content, offset);
      NumberRunIsSlice(content, offset);
      var length := NumberStringLength();
      var numberString := CopyRun(length);
      if numberString == null {
        return false;
      }
      var number := Strtod(numberString[..length]);
      heap.Free(numberString);
      if number.used == 0 {
        return false;
      }
      item.valuedouble := number.value;
      item.valueint := ToInt(number.value);
      item.kind := NumberKind;
      offset := offset + number.used;
      ok := true;
    }

    /** A string on success is a fresh C string; a failure leaves item and the live
        objects as they were. */
    method ParseString(item: Node) returns (ok: bool, ghost cell: Option<Cell>)
      requires CanAccess(0) && ReadsTokens(lex)
      modifies this`offset, heap, item`kind, item`valuestring
      ensures offset <= |content| && heap.denials >= old(heap.denials)
      ensures Agrees(lex.str(content, old(offset)), ok, TextOf(cell), offset, heap.denials > old(heap.denials))
      ensures ok ==> cell.Some? && CellIs(item.valuestring, cell) && item.kind == StringKind
      ensures ok ==> fresh(cell.value.buf) && heap.live == old(heap.live) + {cell.value.buf}
      ensures !ok ==> heap.live == old(heap.live) && item.kind == old(item.kind)
                      && item.valuestring == old(item.valuestring)
    {
      hide Scan, Unescape, UpToNul, ReadsTokens;
      ghost var from := offset;
      TokensAreLexed(lex, content, from);
      ok, cell := false, None;
      if content[offset] != QUOTE {
        offset := offset + 1;
        return;
      }
      var found, end, skipped := FindClosingQuote();
      if !found {
        offset := offset + 1;
        return;
      }
      QuoteIsAhead(content, from + 1);
      var output := heap.NewBytes(end - offset - skipped + 1);
      if output == null {
        offset := offset + 1;
        return;
      }
      var decoded, stopped, text := Decode(end, output, skipped);
      if !decoded {
        heap.Free(output);
        offset := stopped;
        return;
      }
      item.kind := StringKind;
      item.valuestring := output;
      offset := end + 1;
      ok, cell := true, Some(Cell(output, UpToNul(text)));
      HoldsCString(output, text);
    }

    // ---- values --------------------------------------------------------------------------

    // The methods below get a bare node: t0 describes it as it is, and on success t as it
    // has been filled. A failure leaves the node bare and the live objects as they were.

    /** The first three cases of parse_value. */
    method ParseKeyword(item: Node, ghost t0: Shape) returns (found: bool, ghost t: Shape)
      requires offset <= |content| && t0.node == item && Bare(t0) && Holds(t0)
      modifies this`offset, item`kind, item`valueint
      ensures found == (IsNullAt(content, old(offset)) || IsFalseAt(content, old(offset))
                        || IsTrueAt(content, old(offset)))
      ensures found ==> offset <= |content| && Fills(t, t0) && Holds(t) && Owned(t) == Owned(t0)
      ensures found ==> ValueAt(lex, content, old(offset), depth) == Good(ValueOf(t), offset)
      ensures !found ==> offset == old(offset) && t == t0 && Holds(t0)
    {
      found, t := true, t0;
      if IsNullAt(content, offset) {
        item.kind := NullKind;
        offset := offset + 4;
        t := t0.(kind := NullKind);
      } else if IsFalseAt(content, offset) {
        item.kind := FalseKind;
        offset := offset + 5;
        t := t0.(kind := FalseKind);
      } else if IsTrueAt(content, offset) {
        item.kind := TrueKind;
        item.valueint := 1;
        offset := offset + 4;
        t := t0.(kind := TrueKind, whole := 1);
      } else {
        return false, t0;
      }
      LeafFills(t0, t);
    }

    /** parse_string as a case of parse_value. */
    method StoreString(item: Node, ghost t0: Shape) returns (ok: bool, ghost t: Shape)
      requires CanAccess(0) && ReadsTokens(lex)
      requires t0.node == item && Bare(t0) && Holds(t0) && Owned(t0) <= heap.live
      modifies this`offset, heap, item`kind, item`valuestring
      ensures offset <= |content| && heap.denials >= old(heap.denials)
      ensures match lex.str(content, old(offset))
              case Bad => !ok
              case Good(s, next) =>
                ok == (heap.denials == old(heap.denials)) && (ok ==> ValueOf(t) == String(s) && offset == next)
      ensures ok ==> heap.denials == old(heap.denials) && Fills(t, t0) && Holds(t)
      ensures ok ==> fresh(Owned(t) - Owned(t0)) && heap.live == old(heap.live) + Owned(t)
      ensures !ok ==> Holds(t0) && heap.live == old(heap.live)
    {
      hide ReadsTokens;
      ghost var cell;
      t := t0;
      ok, cell := ParseString(item);
      if ok {
        t := t0.(kind := StringKind, str := cell);
        LeafFills(t0, t);
      }
    }

    /** parse_number as a case of parse_value. */
    method StoreNumber(item: Node, ghost t0: Shape) returns (ok: bool, ghost t: Shape)
      requires CanAccess(0) && ReadsTokens(lex)
      requires t0.node == item && Bare(t0) && Holds(t0) && Owned(t0) <= heap.live
      modifies this`offset, heap, item`kind, item`valueint, item`valuedouble
      ensures offset <= |content| && heap.denials >= old(heap.denials)
      ensures Agrees(lex.num(content, old(offset)), ok, ValueOf(t), offset, heap.denials > old(heap.denials))
      ensures ok ==> Fills(t, t0) && Holds(t)
      ensures ok ==> Owned(t) == Owned(t0) && heap.live == old(heap.live)
      ensures !ok ==> Holds(t0) && heap.live == old(heap.live)
    {
      hide ReadsTokens;
      t := t0;
      ok := ParseNumber(item);
      if ok {
        t := t0.(kind := NumberKind, num := item.valuedouble, whole := item.valueint);
        LeafFills(t0, t);
      }
    }

    method ParseValue(item: Node, ghost t0: Shape) returns (ok: bool, ghost t: Shape)
      requires offset <= |content| && ReadsTokens(lex)
      requires t0.node == item && Bare(t0) && Holds(t0) && Owned(t0) <= heap.live
      modifies this, heap, item`kind, item`child, item`valuestring, item`valueint, item`valuedouble
      ensures offset <= |content| && heap.denials >= old(heap.denials)
      ensures Agrees(ValueAt(lex, content, old(offset), old(depth)), ok, ValueOf(t), offset,
                     heap.denials > old(heap.denials))
      ensures ok ==> depth == old(depth) && Fills(t, t0) && Holds(t)
      ensures ok ==> fresh(Owned(t) - Owned(t0)) && heap.live == old(heap.live) + Owned(t)
      ensures !ok ==> Holds(t0) && heap.live == old(heap.live)
      decreases |content| - offset, 4
    {
      hide ReadsTokens, ArrayAt, ObjectAt, Holds, Owned, Fills, ValueOf;
      var found;
      found, t := ParseKeyword(item, t0);
      if found {
        return true, t;
      }
      if CanAccess(0) && content[offset] == QUOTE {
        ok, t := StoreString(item, t0);
        return;
      }
      if CanAccess(0) && (content[offset] == MINUS || IsDigit(content[offset])) {
        ok, t := StoreNumber(item, t0);
        return;
      }
      if CanAccess(0) && content[offset] == LBRACKET {
        ok, t := ParseArray(item, t0);
        return;
      }
      if CanAccess(0) && content[offset] == LBRACE {
        ok, t := ParseObject(item, t0);
        return;
      }
      ok := false;
    }

    /** One turn of parse_array's loop: done holds the items before, the last one first.
        A failure deletes them all. */
    method ParseNextItem(head: Node?, current: Node?, ghost done: List<Shape>)
      returns (ok: bool, newHead: Node?, newCurrent: Node?, ghost built: List<Shape>)
      requires CanAccess(0) && ReadsTokens(lex)
      requires Built(done, head, current) && UnsharedList(done) && OwnedList(done) <= heap.live
      modifies this, heap, OwnedList(done)
      ensures offset <= |content| && heap.denials >= old(heap.denials)
      ensures ok ==> depth == old(depth) && built.Cons? && built.tail == done
      ensures ok ==> Built(built, newHead, newCurrent) && UnsharedList(built)
      ensures ok ==> fresh(Owned(built.head)) && heap.live == old(heap.live) + Owned(built.head)
      ensures !ok ==> heap.live == old(heap.live) - OwnedList(done)
      ensures var r := ValueAt(lex, content, SkipWs(content, old(offset) + 1), old(depth));
              if ok then r.Good? && r.value == ValueOf(built.head)
                         && offset == SkipWs(content, r.next) && heap.denials == old(heap.denials)
              else r == Bad || heap.denials > old(heap.denials)
      decreases |content| - offset, 1
    {
      hide ReadsTokens, ValueAt, SkipWs, Holds, Owned, Apart, Unshared, ValueOf,
           Back, Built, LastNode, HeadNode, ApartList;
      newCurrent, built := current, done;
      NotOwned(this, done);
      NotOwned(heap, done);
      var node;
      node, newHead := NewSibling(heap, head, current, done);
      if node == null {
        return false, newHead, newCurrent, built;
      }
      ghost var t0 := Empty(node);
      BuiltParts(t0, done, newHead);
      offset := offset + 1;
      SkipWhitespace();
      ghost var t;
      ok, t := ParseValue(node, t0);
      if !ok {
        BuiltParts(t0, done, newHead);
        Abandon(heap, newHead, node, Cons(t0, done));
        return;
      }
      BuiltParts(t, done, newHead);
      newCurrent, built := node, Cons(t, done);
      NotOwned(this, built);
      SkipWhitespace();
    }

    /** The loop of parse_array, from the byte in front of the first item to the closing
        bracket. */
    method ParseItems() returns (ok: bool, head: Node?, current: Node?, ghost done: List<Shape>)
      requires CanAccess(0) && ReadsTokens(lex)
      modifies this, heap
      ensures offset <= |content| && heap.denials >= old(heap.denials)
      ensures ok ==> depth == old(depth) && Built(done, head, current) && UnsharedList(done)
      ensures ok ==> fresh(OwnedList(done)) && heap.live == old(heap.live) + OwnedList(done)
      ensures !ok ==> heap.live == old(heap.live)
      ensures Agrees(ItemsAfter(lex, content, old(offset), old(depth)), ok, RevOnto(ValuesOf(done), Nil), offset + 1,
                     heap.denials > old(heap.denials))
      decreases |content| - offset, 2
    {
      hide ReadsTokens, ItemsAfter, ValueAt, SkipWs, Owned, Built, ValueOf, RevOnto;
      ghost var whole := ItemsAfter(lex, content, offset, depth);
      head, current, done := null, null, Nil;
      NoneBuilt();
      NothingIsRead(whole);
      var more := true;
      while more
        invariant offset <= |content| && depth == old(depth) && heap.denials == old(heap.denials)
        invariant Built(done, head, current) && UnsharedList(done)
        invariant fresh(OwnedList(done)) && heap.live == old(heap.live) + OwnedList(done)
        invariant more ==> CanAccess(0) && old(offset) <= offset
        invariant more ==> Resume(ValuesOf(done), ItemsAfter(lex, content, offset, depth)) == whole
        invariant !more ==> whole == if ByteIs(content, offset, RBRACKET)
                                     then Good(RevOnto(ValuesOf(done), Nil), offset + 1) else Bad
        decreases |content| - offset, more
      {
        ItemsTurn(lex, content, offset, depth, ValuesOf(done));
        ok, head, current, done := ParseNextItem(head, current, done);
        if !ok {
          return;
        }
        more := CanAccess(0) && content[offset] == COMMA;
      }
      ok := CanAccess(0) && content[offset] == RBRACKET;
      if !ok {
        Abandon(heap, head, current, done);
      }
    }

    method ParseArray(item: Node, ghost t0: Shape) returns (ok: bool, ghost t: Shape)
      requires CanAccess(0) && ReadsTokens(lex)
      requires t0.node == item && Bare(t0) && Holds(t0) && Owned(t0) <= heap.live
      modifies this, heap, item`kind, item`child
      ensures offset <= |content| && heap.denials >= old(heap.denials)
      ensures Agrees(ArrayAt(lex, content, old(offset), old(depth)), ok, ValueOf(t), offset,
                     heap.denials > old(heap.denials))
      ensures ok ==> depth == old(depth) && Fills(t, t0) && Holds(t)
      ensures ok ==> fresh(Owned(t) - Owned(t0)) && heap.live == old(heap.live) + Owned(t)
      ensures !ok ==> Holds(t0) && heap.live == old(heap.live)
      decreases |content| - offset, 3
    {
      hide ReadsTokens, ItemsAfter, SkipWs, RevOnto, Holds, Owned, OwnedList, Apart, ApartList, Chained, Unshared, Back,
           Built, LastNode, HeadNode, Bare;
      ok, t := false, t0;
      NotOwnedBy(this, t0);
      NotOwnedBy(heap, t0);
      if depth >= NESTING_LIMIT {
        return;
      }
      depth := depth + 1;
      offset := offset + 1;
      SkipWhitespace();
      var head: Node?, current: Node? := null, null;
      ghost var done := Nil;
      if CanAccess(0) && content[offset] == RBRACKET {
        NoneBuilt();
      } else {
        offset := offset - 1;
        if offset + 1 == |content| {
          return;
        }
        ok, head, current, done := ParseItems();
        if !ok {
          return;
        }
      }
      depth := depth - 1;
      NotOwned(this, done);
      t := StoreChildren(item, ArrayKind, head, current, t0, done, heap.live);
      NotOwnedBy(this, t);
      offset := offset + 1;
      ok := true;
    }

    /** A key: parse_string, and then the swap of string and valuestring. */
    method StoreName(node: Node, ghost t0: Shape) returns (ok: bool, ghost t: Shape)
      requires CanAccess(0) && ReadsTokens(lex)
      requires t0.node == node && Bare(t0) && Holds(t0) && t0.name == None && Owned(t0) <= heap.live
      modifies this`offset, heap, node`kind, node`valuestring, node`name
      ensures offset <= |content| && heap.denials >= old(heap.denials)
      ensures Agrees(lex.str(content, old(offset)), ok, TextOf(t.name), offset, heap.denials > old(heap.denials))
      ensures t.node == node && Bare(t) && Holds(t) && Apart(t) && (t.name.Some? <==> ok)
      ensures Owned(t) == Owned(t0) + Buffers(t.name) && fresh(Buffers(t.name))
      ensures heap.live == old(heap.live) + Owned(t)
    {
      hide ReadsTokens, Apart;
      ghost var cell;
      t := t0;
      LeafIsHeld(t0);
      ok, cell := ParseString(node);
      if ok {
        t := TakeName(node, t0, cell);
      }
    }

    /** The part of parse_object's loop that reads the key and the colon. t describes
        the node afterwards, whether or not that succeeds. */
    method ParseName(node: Node, ghost t0: Shape) returns (ok: bool, ghost t: Shape)
      requires CanAccess(0) && ReadsTokens(lex)
      requires t0.node == node && Bare(t0) && Holds(t0) && t0.name == None && Owned(t0) <= heap.live
      modifies this`offset, heap, node`kind, node`valuestring, node`name
      ensures offset <= |content| && heap.denials >= old(heap.denials)
      ensures t.node == node && Bare(t) && Holds(t) && Apart(t)
      ensures Owned(t) == Owned(t0) + Buffers(t.name) && fresh(Buffers(t.name))
      ensures heap.live == old(heap.live) + Owned(t) && (ok ==> t.name.Some?)
      ensures Agrees(lex.key(content, old(offset)), ok, TextOf(t.name), offset, heap.denials > old(heap.denials))
    {
      hide SkipWs, ReadsTokens, Owned, Apart, StringAt, NumberAt, Holds;
      TokensAreLexed(lex, content, offset);
      ok, t := false, t0;
      LeafIsHeld(t0);
      NotOwnedBy(this, t0);
      if !CanAccess(1) {
        return;
      }
      offset := offset + 1;
      SkipWhitespace();
      ok, t := StoreName(node, t0);
      if !ok {
        return;
      }
      NotOwnedBy(this, t);
      SkipWhitespace();
      if !(CanAccess(0) && content[offset] == COLON) {
        return false, t;
      }
      offset := offset + 1;
      SkipWhitespace();
    }

    /** One turn of parse_object's loop, as ParseNextItem. */
    method ParseNextMember(head: Node?, current: Node?, ghost done: List<Shape>)
      returns (ok: bool, newHead: Node?, newCurrent: Node?, ghost built: List<Shape>)
      requires CanAccess(0) && ReadsTokens(lex)
      requires Built(done, head, current) && UnsharedList(done) && OwnedList(done) <= heap.live
      modifies this, heap, OwnedList(done)
      ensures offset <= |content| && heap.denials >= old(heap.denials)
      ensures ok ==> depth == old(depth) && built.Cons? && built.tail == done
      ensures ok ==> Built(built, newHead, newCurrent) && UnsharedList(built) && built.head.name.Some?
      ensures ok ==> fresh(Owned(built.head)) && heap.live == old(heap.live) + Owned(built.head)
      ensures !ok ==> heap.live == old(heap.live) - OwnedList(done)
      ensures var r := MemberAfter(lex, content, old(offset), old(depth));
              if ok then r.Good? && r.value == Member(TextOf(built.head.name), ValueOf(built.head))
                         && offset == SkipWs(content, r.next) && heap.denials == old(heap.denials)
              else r == Bad || heap.denials > old(heap.denials)
      decreases |content| - offset, 1
    {
      hide ReadsTokens, ValueAt, SkipWs, Holds, Owned, Apart, Unshared, ValueOf,
           Back, Built, LastNode, HeadNode, ApartList;
      newCurrent, built := current, done;
      NotOwned(this, done);
      NotOwned(heap, done);
      var node;
      node, newHead := NewSibling(heap, head, current, done);
      if node == null {
        return false, newHead, newCurrent, built;
      }
      BuiltParts(Empty(node), done, newHead);
      ghost var t0, t;
      ok, t0 := ParseName(node, Empty(node));
      if ok {
        ok, t := ParseValue(node, t0);
      }
      if !ok {
        BuiltParts(t0, done, newHead);
        Abandon(heap, newHead, node, Cons(t0, done));
        return;
      }
      BuiltParts(t, done, newHead);
      newCurrent, built := node, Cons(t, done);
      NotOwned(this, built);
      SkipWhitespace();
    }

    /** The loop of parse_object. */
    method ParseMembers() returns (ok: bool, head: Node?, current: Node?, ghost done: List<Shape>)
      requires CanAccess(0) && ReadsTokens(lex)
      modifies this, heap
      ensures offset <= |content| && heap.denials >= old(heap.denials)
      ensures ok ==> depth == old(depth) && Built(done, head, current) && UnsharedList(done) && AllNamed(done)
      ensures ok ==> fresh(OwnedList(done)) && heap.live == old(heap.live) + OwnedList(done)
      ensures !ok ==> heap.live == old(heap.live)
      ensures Agrees(MembersAfter(lex, content, old(offset), old(depth)), ok, RevOnto(MembersOf(done), Nil),
                     offset + 1, heap.denials > old(heap.denials))
      decreases |content| - offset, 2
    {
      hide ReadsTokens, MembersAfter, ValueAt, SkipWs, Owned, Built, ValueOf, RevOnto, MemberAfter;
      ghost var whole := MembersAfter(lex, content, offset, depth);
      head, current, done := null, null, Nil;
      NoneBuilt();
      NothingIsRead(whole);
      var more := true;
      while more
        invariant offset <= |content| && depth == old(depth) && heap.denials == old(heap.denials)
        invariant Built(done, head, current) && UnsharedList(done) && AllNamed(done)
        invariant fresh(OwnedList(done)) && heap.live == old(heap.live) + OwnedList(done)
        invariant more ==> CanAccess(0) && old(offset) <= offset
        invariant more ==> Resume(MembersOf(done), MembersAfter(lex, content, offset, depth)) == whole
        invariant !more ==> whole == if ByteIs(content, offset, RBRACE)
                                     then Good(RevOnto(MembersOf(done), Nil), offset + 1) else Bad
        decreases |content| - offset, more
      {
        MembersTurn(lex, content, offset, depth, MembersOf(done));
        ok, head, current, done := ParseNextMember(head, current, done);
        if !ok {
          return;
        }
        more := CanAccess(0) && content[offset] == COMMA;
      }
      ok := CanAccess(0) && content[offset] == RBRACE;
      if !ok {
        Abandon(heap, head, current, done);
      }
    }

    method ParseObject(item: Node, ghost t0: Shape) returns (ok: bool, ghost t: Shape)
      requires CanAccess(0) && ReadsTokens(lex)
      requires t0.node == item && Bare(t0) && Holds(t0) && Owned(t0) <= heap.live
      modifies this, heap, item`kind, item`child
      ensures offset <= |content| && heap.denials >= old(heap.denials)
      ensures Agrees(ObjectAt(lex, content, old(offset), old(depth)), ok, ValueOf(t), offset,
                     heap.denials > old(heap.denials))
      ensures ok ==> depth == old(depth) && Fills(t, t0) && Holds(t)
      ensures ok ==> fresh(Owned(t) - Owned(t0)) && heap.live == old(heap.live) + Owned(t)
      ensures !ok ==> Holds(t0) && heap.live == old(heap.live)
      decreases |content| - offset, 3
    {
      hide ReadsTokens, MembersAfter, SkipWs, RevOnto, Holds, Owned, OwnedList,
           Apart, ApartList, Chained, Unshared, Back,
           Built, LastNode, HeadNode;
      ok, t := false, t0;
      NotOwnedBy(this, t0);
      NotOwnedBy(heap, t0);
      if depth >= NESTING_LIMIT {
        return;
      }
      depth := depth + 1;
      offset := offset + 1;
      SkipWhitespace();
      var head: Node?, current: Node? := null, null;
      ghost var done := Nil;
      if CanAccess(0) && content[offset] == RBRACE {
        NoneBuilt();
      } else {
        offset := offset - 1;
        if offset + 1 == |content| {
          return;
        }
        ok, head, current, done := ParseMembers();
        if !ok {
          return;
        }
      }
      depth := depth - 1;
      NotOwned(this, done);
      t := StoreChildren(item, ObjectKind, head, current, t0, done, heap.live);
      NotOwnedBy(this, t);
      offset := offset + 1;
      ok := true;
    }
  }

  /** The part of cJSON_ParseWithLengthOpts between the allocation of the root and the
      fail label. */
  method ParseRoot(buffer: ParseBuffer, root: Node, ghost t0: Shape, requireNul: bool)
    returns (ok: bool, ghost t: Shape)
    requires buffer.offset == 0 && buffer.depth == 0 && buffer.lex == CJSON
             && ReadsTokens(CJSON) && buffer.content != []
    requires t0.node == root && Bare(t0) && Holds(t0) && Apart(t0) && Owned(t0) <= buffer.heap.live
    modifies buffer, buffer.heap, root`kind, root`child, root`valuestring, root`valueint, root`valuedouble
    ensures buffer.heap.denials >= old(buffer.heap.denials)
    ensures ok <==> ParseText(buffer.content, requireNul).Good? && buffer.heap.denials == old(buffer.heap.denials)
    ensures ok ==> ParseText(buffer.content, requireNul) == Good(ValueOf(t), buffer.offset) && Unshared(t)
    ensures t.node == root && t.name == t0.name && Holds(t) && Apart(t) && fresh(Owned(t) - Owned(t0))
    ensures buffer.heap.live == old(buffer.heap.live) + Owned(t)
  {
    hide ValueAt, SkipWs, SkipBom, ReadsTokens, Holds, Owned, Apart, Unshared, ValueOf, StringAt, NumberAt, KeyAfter;
    NotOwnedBy(buffer, t0);
    buffer.SkipUtf8Bom();
    buffer.SkipWhitespace();
    ghost var filled;
    ok, filled := buffer.ParseValue(root, t0);
    t := if ok then filled else t0;
    NotOwnedBy(buffer.heap, t);
    NotOwnedBy(buffer, t);
    if ok && requireNul {
      buffer.SkipWhitespace();
      ok := buffer.CanAccess(0) && buffer.content[buffer.offset] == NUL;
    }
  }

  lemma NothingToParse(requireNul: bool)
    ensures ParseText([], requireNul) == Bad
  {
  }

  /** The whole parse. It succeeds exactly when the grammar accepts the buffer and no
      allocation is refused; then what is newly live is the returned tree, every object
      of it new, and otherwise nothing is. On success end is where reading stopped, on
      failure it is an error position inside the buffer. */
  method ParseWithLengthOpts(heap: Allocator, value: bytes, requireNul: bool)
    returns (item: Node?, end: nat, ghost made: List<Shape>)
    modifies heap
    ensures heap.denials >= old(heap.denials)
    ensures item != null <==> ParseText(value, requireNul).Good? && heap.denials == old(heap.denials)
    ensures item != null ==> made.Cons? && made.tail == Nil && HeadNode(made) == item
    ensures item != null ==> Chained(made, null) && ApartList(made) && UnsharedList(made) && made.head.name == None
    ensures item != null ==> ParseText(value, requireNul) == Good(ValueOf(made.head), end)
    ensures item != null ==> fresh(OwnedList(made)) && heap.live == old(heap.live) + OwnedList(made)
    ensures item == null ==> heap.live == old(heap.live) && (value != [] ==> end < |value|)
  {
    hide ParseText, ReadsTokens, Holds, Owned, Apart, Unshared, ValueOf;
    item, end, made := null, 0, Nil;
    NothingToParse(requireNul);
    if value == [] {
      return;
    }
    var buffer := new ParseBuffer(value, heap);
    CjsonReadsTokens();
    var root := heap.NewItem();
    if root == null {
      return;
    }
    EmptyIsHeld(root);
    var ok;
    ghost var t;
    ok, t := ParseRoot(buffer, root, Empty(root), requireNul);
    EndsAreOwned(Cons(t, Nil));
    if !ok {
      DeleteAlone(heap, root, t);
      end := if buffer.offset < |value| then buffer.offset else |value| - 1;
      return;
    }
    item, end, made := root, buffer.offset, Cons(t, Nil);
  }

  /** The wrapper for a C string: the terminator is part of the buffer. */
  method ParseWithOpts(heap: Allocator, value: bytes, requireNul: bool)
    returns (item: Node?, end: nat, ghost made: List<Shape>)
    requires NUL in value
    modifies heap
    ensures heap.denials >= old(heap.denials)
    ensures var text := UpToNul(value) + [NUL];
      && (item != null <==> ParseText(text, requireNul).Good? && heap.denials == old(heap.denials))
      && (item != null ==>
            && made.Cons? && made.tail == Nil && HeadNode(made) == item
            && Chained(made, null) && ApartList(made) && UnsharedList(made) && made.head.name == None
            && ParseText(text, requireNul) == Good(ValueOf(made.head), end))
    ensures item != null ==> fresh(OwnedList(made)) && heap.live == old(heap.live) + OwnedList(made)
    ensures item == null ==> heap.live == old(heap.live)
  {
    hide ValueAt, Holds, Owned, Apart, Unshared, ValueOf, UpToNul;
    item, end, made := ParseWithLengthOpts(heap, UpToNul(value) + [NUL], requireNul);
  }

  /** What a loop that has read done makes of the reading of the rest. */
  function Resume<T>(done: List<T>, r: Parsed<List<T>>): Parsed<List<T>> {
    match r
    case Bad => Bad
    case Good(rest, next) => Good(RevOnto(done, rest), next)
  }

  lemma NothingIsRead<T>(r: Parsed<List<T>>)
    ensures Resume(Nil, r) == r
  {
  }

  lemma ItemsTurn(lx: Lexer, c: bytes, from: nat, depth: nat, done: List<Json>)
    requires from < |c|
    ensures var r := ValueAt(lx, c, SkipWs(c, from + 1), depth);
            var whole := Resume(done, ItemsAfter(lx, c, from, depth));
            match r
            case Bad => whole == Bad
            case Good(v, next) =>
              var after, now := SkipWs(c, next), Cons(v, done);
              && from < after <= |c|
              && whole == if ByteIs(c, after, COMMA) then Resume(now, ItemsAfter(lx, c, after, depth))
                          else if ByteIs(c, after, RBRACKET) then Good(RevOnto(now, Nil), after + 1)
                          else Bad
  {
  }

  /** One member after the byte at off, and the offset after its value. */
  function MemberAfter(lx: Lexer, c: bytes, off: nat, depth: nat): (r: Parsed<Member>)
    ensures r.Good? ==> off < r.next <= |c|
  {
    match lx.key(c, off)
    case Bad => Bad
    case Good(key, at) =>
      match ValueAt(lx, c, at, depth)
      case Bad => Bad
      case Good(v, next) => Good(Member(key, v), next)
  }

  lemma MembersTurn(lx: Lexer, c: bytes, from: nat, depth: nat, done: List<Member>)
    requires from < |c|
    ensures var r := MemberAfter(lx, c, from, depth);
            var whole := Resume(done, MembersAfter(lx, c, from, depth));
            match r
            case Bad => whole == Bad
            case Good(m, next) =>
              var after, now := SkipWs(c, next), Cons(m, done);
              && from < after <= |c|
              && whole == if ByteIs(c, after, COMMA) then Resume(now, MembersAfter(lx, c, after, depth))
                          else if ByteIs(c, after, RBRACE) then Good(RevOnto(now, Nil), after + 1)
                          else Bad
  {
  }

  lemma TokensAreLexed(lx: Lexer, c: bytes, off: nat)
    requires ReadsTokens(lx)
    ensures lx.str(c, off) == StringAt(c, off) && lx.num(c, off) == NumberAt(c, off)
    ensures lx.key(c, off) == ReadKey(lx.str, c, off)
  {
    assert Token(c, off);
  }

  lemma LeafIsHeld(t: Shape)
    requires Bare(t)
    ensures Owned(t) == {t.node} + Buffers(t.name) && Apart(t)
  {
  }

  lemma QuoteIsAhead(c: bytes, i: nat)
    requires i <= |c|
    ensures Scan(c, i).Some? ==> var s := Scan(c, i).value; i + 2 * s.skipped <= s.close < |c|
  {
  }

  /** A NUL inside the decoded bytes cuts the C string short. */
  lemma HoldsCString(buf: array<byte>, text: bytes)
    requires |text| < buf.Length && buf[..|text|] == text && buf[|text|] == NUL
    ensures CellIs(buf, Some(Cell(buf, UpToNul(text))))
  {
    UpToNulCuts(text);
    var s := UpToNul(text);
    assert buf[..|s|] == text[..|s|];
  }
}
