/** JSON string literals: the two passes of parse_string and the escaping of
    print_string_ptr, both as functions over bytes, with the laws that tie them. */
module StringCodec {
  import opened Bytes
  import opened Options
  import Utf8

  // ---- pass one: find the closing quote and count the escapes ---------------

  /** What the first pass learns: where the closing quote is and how many
      backslash pairs precede it. */
  datatype Span = Span(close: nat, skipped: nat)

  function Scan(c: bytes, i: nat): (r: Option<Span>)
    requires i <= |c|
    ensures r.Some? ==> i <= r.value.close < |c| && c[r.value.close] == QUOTE
    ensures r.Some? ==> 2 * r.value.skipped <= r.value.close - i
    decreases |c| - i
  {
    if i >= |c| then None
    else if c[i] == QUOTE then Some(Span(i, 0))
    else if c[i] == BACKSLASH then
      if i + 1 >= |c| then None
      else match Scan(c, i + 2)
        case None => None
        case Some(s) => Some(Span(s.close, s.skipped + 1))
    else Scan(c, i + 1)
  }

  // ---- pass two: decode ------------------------------------------------------

  function ShortEscape(letter: byte): Option<byte> {
    if letter == LOWER_B then Some(BACKSPACE)
    else if letter == LOWER_F then Some(FORMFEED)
    else if letter == LOWER_N then Some(NEWLINE)
    else if letter == LOWER_R then Some(RETURN)
    else if letter == LOWER_T then Some(TAB)
    else if letter == QUOTE || letter == BACKSLASH || letter == SLASH then Some(letter)
    else None
  }

  /** The bytes one \u literal stands for, and how many input bytes it uses. */
  datatype Piece = Piece(out: bytes, used: nat)

  function Utf16Literal(c: bytes, i: nat, end: nat): (r: Option<Piece>)
    requires i <= end <= |c|
    ensures r.Some? ==> i + r.value.used <= end
    ensures r.Some? ==> 1 <= |r.value.out| && 2 * |r.value.out| <= r.value.used <= 12
    ensures r.Some? ==> r.value.used == 6 || r.value.used == 12
  {
    if end - i < 6 then None
    else
      var first := Utf8.CodeUnit(c, i + 2);
      if Utf8.IsLow(first) then None
      else if Utf8.IsHigh(first) then
        if end - (i + 6) < 6 || c[i + 6] != BACKSLASH || c[i + 7] != LOWER_U then None
        else
          var second := Utf8.CodeUnit(c, i + 8);
          if Utf8.IsLow(second) then Some(Piece(Utf8.Encode(Utf8.Combine(first, second)), 12))
          else None
      else Some(Piece(Utf8.Encode(first), 6))
  }

  function Prepend(p: bytes, r: Option<bytes>): Option<bytes> {
    match r
    case None => None
    case Some(s) => Some(p + s)
  }

  /** One step of the decode loop. */
  function Step(c: bytes, i: nat, end: nat): (r: Option<Piece>)
    requires i < end < |c|
    ensures r.Some? ==> 1 <= r.value.used && (i + r.value.used <= end || r.value.used == 2)
    ensures r.Some? ==>
      if c[i] == BACKSLASH then 2 <= r.value.used && 2 * |r.value.out| <= r.value.used
      else r.value == Piece([c[i]], 1)
  {
    if c[i] != BACKSLASH then Some(Piece([c[i]], 1))
    else if c[i + 1] == LOWER_U then Utf16Literal(c, i, end)
    else
      match ShortEscape(c[i + 1])
      case None => None
      case Some(b) => Some(Piece([b], 2))
  }

  /** The decoded bytes of c[i..end], where end is the closing quote. The last
      step may pass end by one: see PassesCanLoseStep. */
  function Unescape(c: bytes, i: nat, end: nat): Option<bytes>
    requires end < |c|
    decreases |c| - i
  {
    if i >= end then Some([])
    else
      match Step(c, i, end)
      case None => None
      case Some(p) => Prepend(p.out, Unescape(c, i + p.used, end))
  }

  /** parse_string's decision: the decoded bytes and the offset after the literal. */
  datatype Literal = BadLiteral | Literal(text: bytes, next: nat)

  function ParseLiteral(c: bytes, off: nat): (r: Literal)
    requires off < |c|
    ensures r.Literal? ==> off + 1 < r.next <= |c|
  {
    if c[off] != QUOTE then BadLiteral
    else match Scan(c, off + 1)
      case None => BadLiteral
      case Some(s) =>
        match Unescape(c, off + 1, s.close)
        case None => BadLiteral
        case Some(text) => Literal(text, s.close + 1)
  }

  // ---- the second pass never outgrows what the first pass measured -------------

  /** The second pass stands at i either in step with the first pass, or on the
      second byte of one of its pairs; sk pairs are still ahead. */
  ghost predicate InStep(c: bytes, i: nat, end: nat, sk: nat) {
    (i <= |c| && Scan(c, i) == Some(Span(end, sk)))
    || (i < |c| && Scan(c, i + 1) == Some(Span(end, sk)))
  }

  /** Jumping n bytes ahead of an aligned position passes at most (n+1)/2 pairs. */
  lemma {:induction false} Resync(c: bytes, i: nat, end: nat, sk: nat, n: nat) returns (sk': nat)
    requires i <= |c| && Scan(c, i) == Some(Span(end, sk)) && i + n <= end
    ensures sk' <= sk
    ensures || (Scan(c, i + n) == Some(Span(end, sk')) && 2 * (sk - sk') <= n)
            || (i + n + 1 <= end && Scan(c, i + n + 1) == Some(Span(end, sk')) && 2 * (sk - sk') <= n + 1)
    decreases n
  {
    if n == 0 {
      sk' := sk;
    } else if c[i] != BACKSLASH {
      sk' := Resync(c, i + 1, end, sk, n - 1);
    } else if n == 1 {
      sk' := sk - 1;
    } else {
      sk' := Resync(c, i + 2, end, sk - 1, n - 2);
    }
  }

  /** One step of the second pass: n input bytes, out output bytes, out <= n/2 for an escape. */
  lemma StepKeepsRoom(c: bytes, i: nat, end: nat, sk: nat, n: nat, out: nat) returns (sk': nat)
    requires i < end < |c| && InStep(c, i, end, sk)
    requires n >= 1 && (i + n <= end || n == 2)
    requires if c[i] == BACKSLASH then 2 <= n && 2 * out <= n else n == 1 && out == 1
    ensures if i + n < end then InStep(c, i + n, end, sk') else sk' == 0
    ensures sk' <= sk && out + (sk - sk') <= (if i + n <= end then n else 1)
  {
    if i + n > end {
      // only a pass that is out of step can meet a backslash right before the quote
      assert n == 2 && i + 1 == end;
      assert Scan(c, end) == Some(Span(end, 0));
      sk' := 0;
    } else if Scan(c, i) == Some(Span(end, sk)) {
      if n == 1 {
        sk' := sk;
      } else {
        sk' := Resync(c, i, end, sk, n);
      }
    } else {
      sk' := Resync(c, i + 1, end, sk, n - 1);
    }
  }

  /** For every input, the decoded bytes fit in what the first pass allocates:
      close - start + 1 - skipped, leaving room for the terminator. */
  lemma {:induction false} UnescapeFits(c: bytes, i: nat, end: nat, sk: nat)
    requires end < |c|
    requires i < end ==> InStep(c, i, end, sk)
    requires i >= end ==> sk == 0
    ensures Unescape(c, i, end).Some? && i <= end ==> |Unescape(c, i, end).value| + sk <= end - i
    ensures Unescape(c, i, end).Some? && i > end ==> Unescape(c, i, end).value == []
    decreases |c| - i
  {
    if i < end && Step(c, i, end).Some? {
      var p := Step(c, i, end).value;
      var sk' := StepKeepsRoom(c, i, end, sk, p.used, |p.out|);
      UnescapeFits(c, i + p.used, end, sk');
    }
  }

  lemma UnescapeIsSized(c: bytes, start: nat)
    requires start <= |c| && Scan(c, start).Some?
    ensures var s := Scan(c, start).value;
            var r := Unescape(c, start, s.close);
            r.Some? ==> |r.value| + s.skipped <= s.close - start
  {
    var s := Scan(c, start).value;
    UnescapeFits(c, start, s.close, s.skipped);
  }

  /** The two passes do lose step, and the quote itself is then decoded. The
      literal is \u123\\ : the bad escape swallows the first byte of the pair \\,
      so its second byte escapes the closing quote. */
  lemma PassesCanLoseStep()
    ensures var c: bytes := [QUOTE, BACKSLASH, LOWER_U, 49, 50, 51, BACKSLASH, BACKSLASH, QUOTE];
            ParseLiteral(c, 0) == Literal([NUL, QUOTE], 9)
  {
    var c: bytes := [QUOTE, BACKSLASH, LOWER_U, 49, 50, 51, BACKSLASH, BACKSLASH, QUOTE];
    assert Scan(c, 8) == Some(Span(8, 0));
    assert Scan(c, 6) == Some(Span(8, 1));
    assert Scan(c, 4) == Some(Span(8, 1));
    assert Scan(c, 3) == Some(Span(8, 1));
    assert Scan(c, 1) == Some(Span(8, 2));
    assert !Utf8.IsHex(c[6]);
    assert Utf8.Encode(0) == [0];
    assert Utf16Literal(c, 1, 8) == Some(Piece([0], 6));
    assert Unescape(c, 9, 8) == Some([]);
    assert Step(c, 7, 8) == Some(Piece([QUOTE], 2));
    assert [QUOTE] + [] == [QUOTE];
    assert Unescape(c, 7, 8) == Some([QUOTE]);
    assert Unescape(c, 1, 8) == Some([NUL] + [QUOTE]);
  }

  // ---- what a literal means: RFC 8259 section 7 -----------------------------------

  /** One character or escape of a literal. */
  datatype Unit = Plain(b: byte) | Short(letter: byte) | Hex(h: bytes)

  /** The letters behind a backslash and the characters they stand for, as section 7 has them. */
  function ShortMeaning(letter: byte): Option<byte> {
    var l := letter as int;
    if l == '"' as int then Some(0x22)
    else if l == '\\' as int then Some(0x5C)
    else if l == '/' as int then Some(0x2F)
    else if l == 'b' as int then Some(0x08)
    else if l == 'f' as int then Some(0x0C)
    else if l == 'n' as int then Some(0x0A)
    else if l == 'r' as int then Some(0x0D)
    else if l == 't' as int then Some(0x09)
    else None
  }

  lemma ShortsAreEscapes(letter: byte)
    ensures ShortEscape(letter) == ShortMeaning(letter)
  {
  }

  /** The value of a hexadecimal digit. */
  function HexValue(b: byte): Option<nat> {
    var d := b as int;
    if '0' as int <= d <= '9' as int then Some(d - '0' as int)
    else if 'A' as int <= d <= 'F' as int then Some(10 + d - 'A' as int)
    else if 'a' as int <= d <= 'f' as int then Some(10 + d - 'a' as int)
    else None
  }

  lemma HexValuesAreDigits(b: byte)
    ensures HexValue(b) == if Utf8.IsHex(b) then Some(Utf8.HexDigit(b)) else None
  {
  }

  predicate AllHex(h: bytes)
    requires |h| == 4
  {
    HexValue(h[0]).Some? && HexValue(h[1]).Some? && HexValue(h[2]).Some? && HexValue(h[3]).Some?
  }

  /** As the grammar spells it; plain bytes may also be control characters, which the
      grammar excludes and the parser copies. */
  predicate ValidUnit(u: Unit) {
    LooseUnit(u) && (u.Plain? ==> u.b != QUOTE) && (u.Hex? ==> AllHex(u.h))
  }

  /** As the second pass takes it: any four bytes may stand behind \u, and count as 0000
      unless all are digits. */
  predicate LooseUnit(u: Unit) {
    match u
    case Plain(b) => b != BACKSLASH
    case Short(letter) => ShortMeaning(letter).Some?
    case Hex(h) => |h| == 4
  }

  predicate ValidUnits(us: seq<Unit>) {
    us == [] || (ValidUnit(us[0]) && ValidUnits(us[1..]))
  }

  predicate LooseUnits(us: seq<Unit>) {
    us == [] || (LooseUnit(us[0]) && LooseUnits(us[1..]))
  }

  function SpellUnit(u: Unit): (t: bytes)
    ensures t != []
  {
    match u
    case Plain(b) => [b]
    case Short(letter) => [BACKSLASH, letter]
    case Hex(h) => [BACKSLASH, LOWER_U] + h
  }

  function Spell(us: seq<Unit>): bytes {
    if us == [] then [] else SpellUnit(us[0]) + Spell(us[1..])
  }

  function Code(u: Unit): (v: nat)
    requires u.Hex? && LooseUnit(u)
    ensures v < 0x10000
  {
    if AllHex(u.h) then
      ((HexValue(u.h[0]).value * 16 + HexValue(u.h[1]).value) * 16 + HexValue(u.h[2]).value) * 16
      + HexValue(u.h[3]).value
    else 0
  }

  lemma CodeIsUnit(h: bytes)
    requires |h| == 4
    ensures Code(Hex(h)) == Utf8.CodeUnit(h, 0) && (AllHex(h) <==> Utf8.IsHex4(h, 0))
  {
    hide HexValue;
    HexValuesAreDigits(h[0]);
    HexValuesAreDigits(h[1]);
    HexValuesAreDigits(h[2]);
    HexValuesAreDigits(h[3]);
  }

  predicate High(u: Unit) {
    u.Hex? && LooseUnit(u) && 0xD800 <= Code(u) <= 0xDBFF
  }

  predicate Low(u: Unit) {
    u.Hex? && LooseUnit(u) && 0xDC00 <= Code(u) <= 0xDFFF
  }

  /** What a pair of surrogates denotes, by section 2.2 of RFC 2781. */
  function PairCode(hi: Unit, lo: Unit): (v: nat)
    requires High(hi) && Low(lo)
    ensures v < 0x110000
  {
    (Code(hi) - 0xD800) * 0x400 + (Code(lo) - 0xDC00) + 0x10000
  }

  /** The bytes that a unit other than a surrogate denotes, in UTF-8. */
  function UnitMeaning(u: Unit): bytes
    requires LooseUnit(u) && !High(u) && !Low(u)
  {
    match u
    case Plain(b) => [b]
    case Short(letter) => [ShortMeaning(letter).value]
    case Hex(_) => Utf8.Encode(Code(u))
  }

  function PairMeaning(hi: Unit, lo: Unit): bytes
    requires High(hi) && Low(lo)
  {
    Utf8.Encode(PairCode(hi, lo))
  }

  /** The bytes that units denote. Surrogates denote something in pairs only. */
  function Meaning(us: seq<Unit>): Option<bytes>
    requires LooseUnits(us)
  {
    if us == [] then Some([])
    else
      var u, rest := us[0], us[1..];
      if Low(u) then None
      else if !High(u) then Prepend(UnitMeaning(u), Meaning(rest))
      else if rest == [] || !Low(rest[0]) then None
      else Prepend(PairMeaning(u, rest[0]), Meaning(rest[1..]))
  }

  /** The unit at k is no surrogate, or has its partner next to it. */
  predicate PairedAt(us: seq<Unit>, k: nat)
    requires k < |us|
  {
    && (High(us[k]) ==> k + 1 < |us| && Low(us[k + 1]))
    && (Low(us[k]) ==> k > 0 && High(us[k - 1]))
  }

  predicate Paired(us: seq<Unit>) {
    forall k :: 0 <= k < |us| ==> PairedAt(us, k)
  }

  lemma PairedSplits(us: seq<Unit>, n: nat)
    requires n <= |us| && (0 < n < |us| ==> !High(us[n - 1]))
    requires forall k :: 0 <= k < n ==> PairedAt(us, k)
    ensures Paired(us) <==> Paired(us[n..])
  {
    var tail := us[n..];
    if Paired(us) {
      forall k | 0 <= k < |tail|
        ensures PairedAt(tail, k)
      {
        assert PairedAt(us, n + k);
      }
    }
    if Paired(tail) {
      forall k | 0 <= k < |us|
        ensures PairedAt(us, k)
      {
        if k >= n {
          assert PairedAt(tail, k - n);
        }
      }
    }
  }

  /** Units mean something exactly when no surrogate is alone. */
  lemma {:induction false} MeaningNeedsPairs(us: seq<Unit>)
    requires LooseUnits(us)
    ensures Meaning(us).Some? <==> Paired(us)
    decreases |us|
  {
    if us == [] {
    } else if Low(us[0]) || (High(us[0]) && (|us| == 1 || !Low(us[1]))) {
      assert !PairedAt(us, 0);
    } else if High(us[0]) {
      assert LooseUnits(us[1..][1..]) && us[1..][1..] == us[2..];
      MeaningNeedsPairs(us[2..]);
      PairedSplits(us, 2);
    } else {
      MeaningNeedsPairs(us[1..]);
      PairedSplits(us, 1);
    }
  }

  // ---- units are read as what they mean -------------------------------------------

  lemma HexEscapeAt(c: bytes, i: nat, h: bytes)
    requires |h| == 4 && At(c, i, [BACKSLASH, LOWER_U] + h)
    ensures i + 6 <= |c| && c[i] == BACKSLASH && c[i + 1] == LOWER_U
    ensures Utf8.CodeUnit(c, i + 2) == Utf8.CodeUnit(h, 0) == Code(Hex(h))
    ensures forall k :: 0 <= k < 4 ==> c[i + 2 + k] == h[k]
  {
    AtConcat(c, i, [BACKSLASH, LOWER_U], h);
    AtByte(c, i, [BACKSLASH, LOWER_U], 0);
    AtByte(c, i, [BACKSLASH, LOWER_U], 1);
    forall k: nat | k < 4
      ensures c[i + 2 + k] == h[k]
    {
      AtByte(c, i + 2, h, k);
    }
    assert c[i + 2] == h[0] && c[i + 3] == h[1] && c[i + 4] == h[2] && c[i + 5] == h[3];
    CodeIsUnit(h);
  }

  /** A unit that is no surrogate is one step of the second pass, and a low surrogate
      stops it. */
  lemma UnitIsAStep(c: bytes, i: nat, end: nat, u: Unit)
    requires LooseUnit(u) && At(c, i, SpellUnit(u)) && !High(u)
    requires i + |SpellUnit(u)| <= end < |c|
    ensures Step(c, i, end) == if Low(u) then None else Some(Piece(UnitMeaning(u), |SpellUnit(u)|))
  {
    match u {
      case Plain(b) =>
        AtByte(c, i, SpellUnit(u), 0);
      case Short(letter) =>
        AtByte(c, i, SpellUnit(u), 0);
        AtByte(c, i, SpellUnit(u), 1);
      case Hex(h) =>
        HexEscapeAt(c, i, h);
    }
  }

  /** So is a pair of surrogates. */
  lemma PairIsAStep(c: bytes, i: nat, end: nat, hi: Unit, lo: Unit)
    requires High(hi) && Low(lo) && At(c, i, SpellUnit(hi)) && At(c, i + 6, SpellUnit(lo)) && i + 12 <= end < |c|
    ensures Step(c, i, end) == Some(Piece(PairMeaning(hi, lo), 12))
  {
    HexEscapeAt(c, i, hi.h);
    HexEscapeAt(c, i + 6, lo.h);
    Utf8.CombineIsPairDecoding(Code(hi), Code(lo));
  }

  /** A high surrogate stops the second pass unless a low one follows. */
  lemma LoneHighStops(c: bytes, i: nat, end: nat, us: seq<Unit>)
    requires LooseUnits(us) && us != [] && High(us[0]) && (|us| == 1 || !Low(us[1]))
    requires At(c, i, Spell(us)) && end == i + |Spell(us)| && end < |c|
    ensures Step(c, i, end) == None
  {
    SpellSplits(c, i, us);
    HexEscapeAt(c, i, us[0].h);
    if |us| > 1 {
      SpellSplits(c, i + 6, us[1..]);
      var u := us[1];
      AtByte(c, i + 6, SpellUnit(u), 0);
      match u {
        case Plain(_) =>
        case Short(_) => AtByte(c, i + 6, SpellUnit(u), 1);
        case Hex(h) => HexEscapeAt(c, i + 6, h);
      }
    }
  }

  lemma PrependTwice(a: bytes, b: bytes, r: Option<bytes>)
    ensures Prepend(a, Prepend(b, r)) == Prepend(a + b, r)
    ensures Prepend([], r) == r
  {
    if r.Some? {
      assert a + (b + r.value) == (a + b) + r.value;
      assert [] + r.value == r.value;
    }
  }

  lemma SpellSplits(c: bytes, i: nat, us: seq<Unit>)
    requires us != [] && LooseUnits(us) && At(c, i, Spell(us))
    ensures LooseUnit(us[0]) && LooseUnits(us[1..])
    ensures |Spell(us)| == |SpellUnit(us[0])| + |Spell(us[1..])|
    ensures At(c, i, SpellUnit(us[0])) && At(c, i + |SpellUnit(us[0])|, Spell(us[1..]))
  {
    hide At, SpellUnit;
    AtConcat(c, i, SpellUnit(us[0]), Spell(us[1..]));
  }

  /** The first unit, or pair of units, and what comes behind it. */
  lemma MeaningStep(c: bytes, i: nat, end: nat, us: seq<Unit>) returns (n: nat, p: Piece)
    requires us != [] && LooseUnits(us) && At(c, i, Spell(us)) && i + |Spell(us)| <= end < |c|
    requires Meaning(us).Some? || end == i + |Spell(us)|
    ensures Step(c, i, end).None? ==> Meaning(us).None?
    ensures Step(c, i, end).Some? ==>
              && Step(c, i, end) == Some(p) && 0 < n <= |us| && LooseUnits(us[n..])
              && p.used + |Spell(us[n..])| == |Spell(us)| && At(c, i + p.used, Spell(us[n..]))
              && Meaning(us) == Prepend(p.out, Meaning(us[n..]))
  {
    hide At, Spell, LooseUnits, Code, Meaning, ShortMeaning;
    SpellSplits(c, i, us);
    n, p := 1, Piece([], 0);
    if High(us[0]) {
      MeaningOfHigh(us);
      if |us| == 1 || !Low(us[1]) {
        LoneHighStops(c, i, end, us);
      } else {
        SpellSplits(c, i + 6, us[1..]);
        assert us[1..][1..] == us[2..];
        PairIsAStep(c, i, end, us[0], us[1]);
        n, p := 2, Step(c, i, end).value;
      }
    } else {
      MeaningOfOther(us);
      UnitIsAStep(c, i, end, us[0]);
      if Step(c, i, end).Some? {
        p := Step(c, i, end).value;
      }
    }
  }

  lemma MeaningOfHigh(us: seq<Unit>)
    requires us != [] && LooseUnits(us) && High(us[0])
    ensures |us| == 1 || !Low(us[1]) ==> Meaning(us) == None
    ensures |us| > 1 && Low(us[1]) ==>
              LooseUnits(us[2..]) && Meaning(us) == Prepend(PairMeaning(us[0], us[1]), Meaning(us[2..]))
  {
    if |us| > 1 {
      assert us[1..][1..] == us[2..];
    }
  }

  lemma MeaningOfOther(us: seq<Unit>)
    requires us != [] && LooseUnits(us) && !High(us[0])
    ensures Meaning(us) == if Low(us[0]) then None else Prepend(UnitMeaning(us[0]), Meaning(us[1..]))
  {
  }

  /** The second pass over units, up to the end of the literal or any part of the way. */
  lemma {:induction false} UnescapeUnits(c: bytes, i: nat, j: nat, end: nat, us: seq<Unit>)
    requires LooseUnits(us) && At(c, i, Spell(us)) && j == i + |Spell(us)| && j <= end < |c|
    ensures Meaning(us).Some? ==> Unescape(c, i, end) == Prepend(Meaning(us).value, Unescape(c, j, end))
    ensures Meaning(us).None? && j == end ==> Unescape(c, i, end) == None
    decreases |us|
  {
    hide At, Spell, Meaning, LooseUnits, Step;
    if us == [] {
      NoUnits(c, i);
      PrependTwice([], [], Unescape(c, j, end));
    } else if Meaning(us).Some? || j == end {
      SpellSplits(c, i, us);
      var n, p := MeaningStep(c, i, end, us);
      if Step(c, i, end).Some? {
        var rest := us[n..];
        UnescapeUnits(c, i + p.used, j, end, rest);
        if Meaning(rest).Some? {
          PrependTwice(p.out, Meaning(rest).value, Unescape(c, j, end));
        }
      }
    }
  }

  lemma UnitInFront(c: bytes, i: nat, u: Unit, us: seq<Unit>)
    requires LooseUnit(u) && LooseUnits(us) && At(c, i, SpellUnit(u)) && At(c, i + |SpellUnit(u)|, Spell(us))
    ensures LooseUnits([u] + us) && At(c, i, Spell([u] + us)) && |Spell([u] + us)| == |SpellUnit(u)| + |Spell(us)|
  {
    hide At, SpellUnit, LooseUnit;
    assert ([u] + us)[1..] == us;
    AtConcat(c, i, SpellUnit(u), Spell(us));
  }

  /** The escape of six bytes at i as a unit. */
  lemma HexUnitStands(c: bytes, i: nat)
    requires i + 6 <= |c| && c[i] == BACKSLASH && c[i + 1] == LOWER_U
    ensures var u := Hex(c[i + 2..i + 6]);
      LooseUnit(u) && At(c, i, SpellUnit(u)) && Code(u) == Utf8.CodeUnit(c, i + 2)
  {
    hide Code;
    AtIsSlice(c, i, [BACKSLASH, LOWER_U] + c[i + 2..i + 6]);
    assert c[i..i + 6] == [BACKSLASH, LOWER_U] + c[i + 2..i + 6];
    CodeIsUnit(c[i + 2..i + 6]);
  }

  /** One step of the second pass as a unit, or as two. */
  lemma StepIsUnits(c: bytes, i: nat, end: nat, rest: seq<Unit>) returns (us: seq<Unit>)
    requires i < end < |c| && Step(c, i, end).Some?
    requires LooseUnits(rest) && At(c, i + Step(c, i, end).value.used, Spell(rest))
    ensures var p := Step(c, i, end).value;
      && LooseUnits(us) && At(c, i, Spell(us)) && |Spell(us)| == p.used + |Spell(rest)|
      && Meaning(us) == Prepend(p.out, Meaning(rest))
  {
    hide At, Spell, LooseUnits, SpellUnit, Meaning, Code, AllHex;
    var p, tail := Step(c, i, end).value, rest;
    var u := if c[i] == BACKSLASH then Short(c[i + 1]) else Plain(c[i]);
    if c[i] == BACKSLASH && c[i + 1] == LOWER_U {
      HexUnitStands(c, i);
      u := Hex(c[i + 2..i + 6]);
      if p.used == 12 {
        HexUnitStands(c, i + 6);
        var lo := Hex(c[i + 8..i + 12]);
        Utf8.CombineIsPairDecoding(Code(u), Code(lo));
        UnitLength(lo);
        UnitInFront(c, i + 6, lo, rest);
        tail := [lo] + rest;
      }
    } else {
      ByteUnitStands(c, i, u);
    }
    UnitLength(u);
    UnitInFront(c, i, u, tail);
    us := [u] + tail;
    assert us[1..] == tail && (p.used == 12 ==> us[2..] == rest);
    if High(u) {
      MeaningOfHigh(us);
    } else {
      MeaningOfOther(us);
    }
  }

  lemma UnitLength(u: Unit)
    requires LooseUnit(u)
    ensures |SpellUnit(u)| == match u case Plain(_) => 1 case Short(_) => 2 case Hex(_) => 6
  {
  }

  lemma ByteUnitStands(c: bytes, i: nat, u: Unit)
    requires i < |c| && !u.Hex? && (u.Short? ==> i + 1 < |c| && c[i] == BACKSLASH && u.letter == c[i + 1])
    requires u.Plain? ==> u.b == c[i]
    ensures At(c, i, SpellUnit(u))
  {
    AtIsSlice(c, i, SpellUnit(u));
    assert u.Short? ==> c[i..i + 2] == SpellUnit(u);
    assert u.Plain? ==> c[i..i + 1] == SpellUnit(u);
  }

  /** And back: whatever the second pass decodes is spelled as units that mean it. The
      last escape may take the closing quote: see PassesCanLoseStep. */
  lemma {:induction false} UnescapedIsUnits(c: bytes, i: nat, end: nat) returns (us: seq<Unit>)
    requires end < |c| && (i <= end || i == end + 1) && Unescape(c, i, end).Some?
    ensures LooseUnits(us) && At(c, i, Spell(us)) && Meaning(us) == Unescape(c, i, end)
    ensures i <= end ==> end <= i + |Spell(us)| <= end + 1
    ensures i == end + 1 ==> us == []
    decreases |c| - i
  {
    hide At, SpellUnit, LooseUnit, Step, Meaning;
    if i >= end {
      us := [];
      NoUnits(c, i);
    } else {
      us := UnescapedIsUnits(c, i + Step(c, i, end).value.used, end);
      us := StepIsUnits(c, i, end, us);
    }
  }

  lemma NoUnits(c: bytes, i: nat)
    requires i <= |c|
    ensures LooseUnits([]) && Meaning([]) == Some([]) && Spell([]) == [] && At(c, i, [])
  {
  }

  /** The first pass steps over a run of bytes that holds neither quote nor backslash. */
  lemma {:induction false} ScanPlain(c: bytes, i: nat, n: nat)
    requires i + n <= |c|
    requires forall k :: i <= k < i + n ==> c[k] != QUOTE && c[k] != BACKSLASH
    ensures Scan(c, i) == Scan(c, i + n)
    decreases n
  {
    if n > 0 {
      ScanPlain(c, i + 1, n - 1);
    }
  }

  lemma ScanUnit(c: bytes, i: nat, u: Unit)
    requires ValidUnit(u) && At(c, i, SpellUnit(u))
    ensures var j := i + |SpellUnit(u)|;
            && (Scan(c, i).Some? <==> Scan(c, j).Some?)
            && (Scan(c, i).Some? ==> Scan(c, i).value.close == Scan(c, j).value.close)
  {
    AtByte(c, i, SpellUnit(u), 0);
    if u.Hex? {
      HexEscapeAt(c, i, u.h);
      assert c[i + 2] == u.h[0] && c[i + 3] == u.h[1] && c[i + 4] == u.h[2] && c[i + 5] == u.h[3];
      ScanPlain(c, i + 2, 4);
    }
  }

  lemma {:induction false} ScanUnits(c: bytes, i: nat, end: nat, us: seq<Unit>)
    requires ValidUnits(us) && At(c, i, Spell(us))
    requires end == i + |Spell(us)| && end < |c| && c[end] == QUOTE
    ensures Scan(c, i).Some? && Scan(c, i).value.close == end
    decreases |us|
  {
    hide At, SpellUnit, ValidUnit;
    if us != [] {
      ValidIsLoose(us);
      SpellSplits(c, i, us);
      ScanUnits(c, i + |SpellUnit(us[0])|, end, us[1..]);
      ScanUnit(c, i, us[0]);
    }
  }

  lemma {:induction false} ValidIsLoose(us: seq<Unit>)
    requires ValidUnits(us)
    ensures LooseUnits(us)
  {
    if us != [] {
      ValidIsLoose(us[1..]);
    }
  }

  /** A literal between quotes. */
  function Quoted(us: seq<Unit>): bytes {
    [QUOTE] + Spell(us) + [QUOTE]
  }

  lemma QuotedStands(c: bytes, off: nat, text: bytes)
    requires At(c, off, [QUOTE] + text + [QUOTE])
    ensures var end := off + 1 + |text|;
      end < |c| && c[off] == QUOTE && At(c, off + 1, text) && c[end] == QUOTE
  {
    var end := off + 1 + |text|;
    AtConcat(c, off, [QUOTE] + text, [QUOTE]);
    AtConcat(c, off, [QUOTE], text);
    AtByte(c, off, [QUOTE], 0);
    AtByte(c, end, [QUOTE], 0);
  }

  /** Escape decoding: every literal of the grammar, wherever it stands, is read as its
      meaning, and rejected if and only if one of its surrogates is alone. */
  lemma LiteralIsRead(c: bytes, off: nat, us: seq<Unit>)
    requires ValidUnits(us) && At(c, off, Quoted(us))
    ensures LooseUnits(us) && (Meaning(us).Some? <==> Paired(us))
    ensures ParseLiteral(c, off)
         == if Paired(us) then Literal(Meaning(us).value, off + |Quoted(us)|) else BadLiteral
  {
    hide Spell, Meaning, At, LooseUnits, ValidUnits, Paired;
    var end := off + 1 + |Spell(us)|;
    ValidIsLoose(us);
    MeaningNeedsPairs(us);
    QuotedStands(c, off, Spell(us));
    ScanUnits(c, off + 1, end, us);
    UnescapeUnits(c, off + 1, end, end, us);
    if Paired(us) {
      assert Meaning(us).value + [] == Meaning(us).value;
    }
  }

  /** A \u escape at i whose value is a surrogate that no partner completes. */
  ghost predicate LoneSurrogate(c: bytes, i: nat, end: nat) {
    && i + 6 <= end < |c| && c[i] == BACKSLASH && c[i + 1] == LOWER_U
    && Utf8.IsHex4(c, i + 2)
    && var u := Utf8.Hex4(c, i + 2);
       || Utf8.IsLow(u)
       || (Utf8.IsHigh(u)
           && !(i + 12 <= end && c[i + 6] == BACKSLASH && c[i + 7] == LOWER_U
                && Utf8.IsHex4(c, i + 8) && Utf8.IsLow(Utf8.Hex4(c, i + 8))))
  }

  lemma LoneSurrogateStops(c: bytes, i: nat, end: nat)
    requires LoneSurrogate(c, i, end)
    ensures Unescape(c, i, end) == None
  {
    assert Step(c, i, end) == None;
  }

  /** A lone surrogate behind any units makes the whole literal fail, whatever else is in it. */
  lemma LoneSurrogateFails(c: bytes, off: nat, us: seq<Unit>)
    requires LooseUnits(us) && Paired(us) && At(c, off, [QUOTE] + Spell(us))
    requires Scan(c, off + 1).Some?
    requires LoneSurrogate(c, off + 1 + |Spell(us)|, Scan(c, off + 1).value.close)
    ensures ParseLiteral(c, off) == BadLiteral
  {
    hide Spell, Meaning, At, LooseUnits, Paired;
    var end, j := Scan(c, off + 1).value.close, off + 1 + |Spell(us)|;
    LoneSurrogateStops(c, j, end);
    AtConcat(c, off, [QUOTE], Spell(us));
    MeaningNeedsPairs(us);
    UnescapeUnits(c, off + 1, j, end, us);
  }

  // ---- printing -------------------------------------------------------------------

  function LowerHex(v: nat): byte
    requires v < 16
  {
    if v < 10 then (48 + v) as byte else (87 + v) as byte
  }

  /** What print_string_ptr writes for one byte. */
  function EscapeByte(b: byte): (t: bytes)
    ensures |t| == 1 + Extra(b)
  {
    if b > 31 && b != QUOTE && b != BACKSLASH then [b]
    else if b == BACKSLASH || b == QUOTE then [BACKSLASH, b]
    else if b == BACKSPACE then [BACKSLASH, LOWER_B]
    else if b == FORMFEED then [BACKSLASH, LOWER_F]
    else if b == NEWLINE then [BACKSLASH, LOWER_N]
    else if b == RETURN then [BACKSLASH, LOWER_R]
    else if b == TAB then [BACKSLASH, LOWER_T]
    else [BACKSLASH, LOWER_U, 48, 48, LowerHex(b as nat / 16), LowerHex(b as nat % 16)]
  }

  /** What the counting loop of print_string_ptr adds for one byte. */
  function Extra(b: byte): nat {
    if b == QUOTE || b == BACKSLASH || b == BACKSPACE || b == FORMFEED
       || b == NEWLINE || b == RETURN || b == TAB then 1
    else if b < 32 then 5
    else 0
  }

  function Escape(s: bytes): bytes {
    if s == [] then [] else EscapeByte(s[0]) + Escape(s[1..])
  }

  function ExtraTotal(s: bytes): nat {
    if s == [] then 0 else Extra(s[0]) + ExtraTotal(s[1..])
  }

  function Quote(s: bytes): bytes {
    [QUOTE] + Escape(s) + [QUOTE]
  }

  /** The counting loop predicts exactly what the escaping loop writes. */
  lemma {:induction false} EscapeLength(s: bytes)
    ensures |Escape(s)| == |s| + ExtraTotal(s)
    ensures ExtraTotal(s) == 0 ==> Escape(s) == s
  {
    if s != [] {
      EscapeLength(s[1..]);
    }
  }

  lemma {:induction false} EscapeAppend(s: bytes, t: bytes)
    ensures Escape(s + t) == Escape(s) + Escape(t)
    ensures ExtraTotal(s + t) == ExtraTotal(s) + ExtraTotal(t)
  {
    if s == [] {
      assert s + t == t;
    } else {
      assert (s + t)[1..] == s[1..] + t;
      EscapeAppend(s[1..], t);
    }
  }

  function UnitOf(b: byte): (u: Unit)
    ensures ValidUnit(u) && SpellUnit(u) == EscapeByte(b)
  {
    if b > 31 && b != QUOTE && b != BACKSLASH then Plain(b)
    else if b == BACKSLASH || b == QUOTE then Short(b)
    else if b == BACKSPACE then Short(LOWER_B)
    else if b == FORMFEED then Short(LOWER_F)
    else if b == NEWLINE then Short(LOWER_N)
    else if b == RETURN then Short(LOWER_R)
    else if b == TAB then Short(LOWER_T)
    else
      var h := [48, 48, LowerHex(b as nat / 16), LowerHex(b as nat % 16)];
      assert Utf8.HexDigit(h[2]) == b as nat / 16 && Utf8.HexDigit(h[3]) == b as nat % 16;
      Hex(h)
  }

  function UnitsOf(s: bytes): seq<Unit> {
    if s == [] then [] else [UnitOf(s[0])] + UnitsOf(s[1..])
  }

  lemma UnitOfMeans(b: byte)
    ensures var u := UnitOf(b); !High(u) && !Low(u) && UnitMeaning(u) == [b]
  {
  }

  /** A unit as section 7 allows it, without bare control characters. */
  predicate StrictUnit(u: Unit) {
    ValidUnit(u) && (u.Plain? ==> u.b as int >= 0x20)
  }

  /** The printer spells each byte as shortly as the grammar allows: bare where it can be,
      with a letter where there is one, and otherwise with lower-case digits. */
  lemma EscapeIsShortest(b: byte, u: Unit)
    requires StrictUnit(u) && !High(u) && !Low(u) && UnitMeaning(u) == [b]
    ensures StrictUnit(UnitOf(b)) && |EscapeByte(b)| <= |SpellUnit(u)|
    ensures |EscapeByte(b)| == |SpellUnit(u)| && !u.Hex? ==> EscapeByte(b) == SpellUnit(u)
    ensures forall k :: 0 <= k < |EscapeByte(b)| && EscapeByte(b)[k] != b ==>
                          !('A' as int <= EscapeByte(b)[k] as int <= 'F' as int)
  {
    hide Code, Utf8.Encode;
    if u.Hex? {
      EncodedInOne(Code(u), b);
    }
  }

  lemma EncodedInOne(cp: nat, b: byte)
    requires cp < 0x110000 && Utf8.Encode(cp) == [b]
    ensures cp == b as nat
  {
  }

  lemma {:induction false} EscapeIsALiteral(s: bytes)
    ensures ValidUnits(UnitsOf(s)) && LooseUnits(UnitsOf(s))
    ensures Spell(UnitsOf(s)) == Escape(s) && Meaning(UnitsOf(s)) == Some(s)
  {
    if s != [] {
      var us := UnitsOf(s);
      EscapeIsALiteral(s[1..]);
      assert us[1..] == UnitsOf(s[1..]);
      UnitOfMeans(s[0]);
      MeaningOfOther(us);
      assert [s[0]] + s[1..] == s;
    }
  }

  /** String inverse: reading what was printed gives the bytes back, and leaves the
      cursor just past the closing quote. */
  lemma QuoteIsReadBack(c: bytes, off: nat, s: bytes)
    requires At(c, off, Quote(s))
    ensures ParseLiteral(c, off) == Literal(s, off + |Quote(s)|)
    ensures |Quote(s)| == |s| + ExtraTotal(s) + 2
  {
    EscapeIsALiteral(s);
    EscapeLength(s);
    assert Quoted(UnitsOf(s)) == Quote(s);
    LiteralIsRead(c, off, UnitsOf(s));
  }

  lemma {:induction false} EscapeIsNulFree(s: bytes)
    requires NUL !in s
    ensures NUL !in Escape(s)
  {
    if s != [] {
      EscapeIsNulFree(s[1..]);
    }
  }
}
