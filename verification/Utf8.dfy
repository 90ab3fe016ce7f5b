/** Hexadecimal escapes, UTF-16 surrogates and UTF-8, as cJSON.c computes them
    and as RFC 3629 and RFC 2781 define them. */
module Utf8 {
  import opened Bytes

  // ---- hexadecimal digits -------------------------------------------------

  predicate IsHex(b: byte) {
    48 <= b <= 57 || 65 <= b <= 70 || 97 <= b <= 102
  }

  function HexDigit(b: byte): (v: nat)
    requires IsHex(b)
    ensures v < 16
  {
    if b <= 57 then b as nat - 48 else if b <= 70 then b as nat - 55 else b as nat - 87
  }

  // The sixteen digits, in either case.
  const LOWER_DIGITS: bytes := [48, 49, 50, 51, 52, 53, 54, 55, 56, 57, 97, 98, 99, 100, 101, 102]
  const UPPER_DIGITS: bytes := [48, 49, 50, 51, 52, 53, 54, 55, 56, 57, 65, 66, 67, 68, 69, 70]

  /** The value v of a digit is its place among the sixteen; nothing else is a digit. */
  predicate IsDigitOf(b: byte, v: nat) {
    v < 16 && (b == LOWER_DIGITS[v] || b == UPPER_DIGITS[v])
  }

  lemma DigitsArePlaces(b: byte)
    ensures IsHex(b) ==> IsDigitOf(b, HexDigit(b))
    ensures forall v: nat :: IsDigitOf(b, v) ==> IsHex(b) && HexDigit(b) == v
  {
  }

  predicate IsHex4(c: bytes, at: nat) {
    at + 4 <= |c| && IsHex(c[at]) && IsHex(c[at + 1]) && IsHex(c[at + 2]) && IsHex(c[at + 3])
  }

  function Hex4(c: bytes, at: nat): (v: nat)
    requires IsHex4(c, at)
    ensures v < 0x10000
  {
    4096 * HexDigit(c[at]) + 256 * HexDigit(c[at + 1]) + 16 * HexDigit(c[at + 2]) + HexDigit(c[at + 3])
  }

  /** parse_hex4: the value of four digits, and 0 when one of them is not a digit. */
  function CodeUnit(c: bytes, at: nat): (v: nat)
    requires at + 4 <= |c|
    ensures v < 0x10000
  {
    if IsHex4(c, at) then Hex4(c, at) else 0
  }

  /** The value of any number of digits. */
  function Nibbles(s: bytes): nat
    requires forall k :: 0 <= k < |s| ==> IsHex(s[k])
  {
    if s == [] then 0 else 16 * Nibbles(s[..|s| - 1]) + HexDigit(s[|s| - 1])
  }

  lemma NibblesGrow(c: bytes, at: nat, i: nat)
    requires at + i < |c| && forall k :: at <= k <= at + i ==> IsHex(c[k])
    ensures Nibbles(c[at..at + i + 1]) == 16 * Nibbles(c[at..at + i]) + HexDigit(c[at + i])
  {
    assert c[at..at + i + 1][..i] == c[at..at + i];
  }

  lemma FourNibbles(c: bytes, at: nat)
    requires IsHex4(c, at)
    ensures Nibbles(c[at..at + 4]) == Hex4(c, at)
  {
    hide HexDigit, IsHex, Nibbles;
    NoNibbles();
    assert c[at..at + 0] == [];
    NibblesGrow(c, at, 0);
    NibblesGrow(c, at, 1);
    NibblesGrow(c, at, 2);
    NibblesGrow(c, at, 3);
  }

  lemma NoNibbles()
    ensures Nibbles([]) == 0
  {
  }

  /** parse_hex4 as the loop it is: accumulate a nibble, shift left except after the last. */
  method ParseHex4(c: bytes, at: nat) returns (h: nat)
    requires at + 4 <= |c|
    ensures h == CodeUnit(c, at)
  {
    h := 0;
    for i := 0 to 4
      invariant forall k :: at <= k < at + i ==> IsHex(c[k])
      invariant h == if i < 4 then 16 * Nibbles(c[at..at + i]) else Nibbles(c[at..at + i])
    {
      var b := c[at + i] as nat;
      if 48 <= b <= 57 {
        h := h + (b - 48);
      } else if 65 <= b <= 70 {
        h := h + (10 + b - 65);
      } else if 97 <= b <= 102 {
        h := h + (10 + b - 97);
      } else {
        return 0;
      }
      NibblesGrow(c, at, i);
      if i < 3 {
        h := h * 16;
      }
    }
    FourNibbles(c, at);
  }

  // ---- UTF-8 --------------------------------------------------------------

  /** A continuation byte: 10xxxxxx with the low six bits. */
  function Continuation(cp: nat): byte {
    (0x80 + cp % 64) as byte
  }

  /** The UTF-8 encoding of a scalar value: the table in section 3 of RFC 3629. */
  function Encode(cp: nat): (u: bytes)
    requires cp < 0x110000
    ensures 1 <= |u| <= 4
  {
    if cp < 0x80 then [cp as byte]
    else if cp < 0x800 then [(0xC0 + cp / 64) as byte, Continuation(cp)]
    else if cp < 0x10000 then [(0xE0 + cp / 4096) as byte, Continuation(cp / 64), Continuation(cp)]
    else [(0xF0 + cp / 262144) as byte, Continuation(cp / 4096), Continuation(cp / 64), Continuation(cp)]
  }

  /** The six payload bits of continuation byte i. */
  function Payload(u: bytes, i: nat): int
    requires i < |u|
  {
    u[i] as int - 0x80
  }

  /** A reader of one UTF-8 sequence, by the length class of its lead byte. */
  function Decode(u: bytes): (cp: int)
    requires u != []
  {
    var lead := u[0] as int;
    if lead < 0x80 && |u| == 1 then lead
    else if 0xC0 <= lead < 0xE0 && |u| == 2 then (lead - 0xC0) * 64 + Payload(u, 1)
    else if 0xE0 <= lead < 0xF0 && |u| == 3 then
      (lead - 0xE0) * 4096 + Payload(u, 1) * 64 + Payload(u, 2)
    else if 0xF0 <= lead && |u| == 4 then
      (lead - 0xF0) * 262144 + Payload(u, 1) * 4096 + Payload(u, 2) * 64 + Payload(u, 3)
    else -1
  }

  lemma EncodeIsReadBack(cp: nat)
    requires cp < 0x110000
    ensures Decode(Encode(cp)) == cp
  {
    ShiftsCompose(cp);
  }

  /** The bit form of a continuation byte in cJSON.c is the arithmetic form used here. */
  lemma ContinuationBits(c: bv32)
    ensures (c | 0x80) & 0xBF == 0x80 + c % 64
    ensures c >> 6 == c / 64
  {
  }

  /** The lead byte: the mark's bits lie above every bit the shifted code point can hold. */
  lemma LeadBits(c: bv32)
    ensures c < 32 ==> (c | 0xC0) & 0xFF == 0xC0 + c
    ensures c < 16 ==> (c | 0xE0) & 0xFF == 0xE0 + c
    ensures c < 8 ==> (c | 0xF0) & 0xFF == 0xF0 + c
  {
  }

  /** The encoding loop of utf16_literal_to_utf8: continuation bytes from the last to
      the second, six bits at a time, then the lead byte with its mark. */
  method EncodeInto(cp: nat, output: array<byte>, o: nat) returns (length: nat)
    requires cp < 0x110000 && o + |Encode(cp)| <= output.Length
    modifies output
    ensures length == |Encode(cp)| && output[o..o + length] == Encode(cp)
    ensures output[..o] == old(output[..o])
  {
    var mark := 0;
    if cp < 0x80 {
      length := 1;
    } else if cp < 0x800 {
      length, mark := 2, 0xC0;
    } else if cp < 0x10000 {
      length, mark := 3, 0xE0;
    } else {
      length, mark := 4, 0xF0;
    }
    var rest := cp;
    for position := length downto 1
      invariant output[..o] == old(output[..o])
      invariant rest == ShiftRight6(cp, length - position)
      invariant forall k :: position <= k < length ==> output[o + k] == Encode(cp)[k]
    {
      ShiftsCompose(cp);
      output[o + position] := Continuation(rest);
      rest := rest / 64;
    }
    output[o] := (rest + mark) as byte;
  }

  /** cp without its last n six-bit groups. */
  function ShiftRight6(cp: nat, n: nat): nat {
    if n == 0 then cp else if n == 1 then cp / 64 else if n == 2 then cp / 4096 else cp / 262144
  }

  lemma ShiftsCompose(cp: nat)
    ensures cp / 64 / 64 == cp / 4096 && cp / 4096 / 64 == cp / 262144
  {
  }

  // ---- UTF-16 -------------------------------------------------------------

  predicate IsHigh(u: nat) { 0xD800 <= u <= 0xDBFF }

  predicate IsLow(u: nat) { 0xDC00 <= u <= 0xDFFF }

  /** Section 2.1 of RFC 2781: the surrogate pair of a scalar value above 0xFFFF. */
  function SurrogatesOf(cp: nat): (p: (nat, nat))
    requires 0x10000 <= cp < 0x110000
    ensures IsHigh(p.0) && IsLow(p.1)
  {
    (0xD800 + (cp - 0x10000) / 1024, 0xDC00 + (cp - 0x10000) % 1024)
  }

  /** How cJSON.c combines a pair: the low ten bits of each, above 0x10000. */
  function Combine(first: nat, second: nat): (cp: nat)
    requires IsHigh(first) && IsLow(second)
    ensures 0x10000 <= cp < 0x110000
  {
    0x10000 + (first % 1024) * 1024 + second % 1024
  }

  lemma CombineBits(first: bv32, second: bv32)
    ensures ((first & 0x3FF) << 10) | (second & 0x3FF) == (first % 1024) * 1024 + second % 1024
  {
  }

  /** The low ten bits are the pair decoding of section 2.2 of RFC 2781. */
  lemma CombineIsPairDecoding(first: nat, second: nat)
    requires IsHigh(first) && IsLow(second)
    ensures Combine(first, second) == (first - 0xD800) * 0x400 + (second - 0xDC00) + 0x10000
  {
    assert first % 1024 == first - 0xD800 && second % 1024 == second - 0xDC00;
  }

  lemma CombineInvertsSurrogates(cp: nat)
    requires 0x10000 <= cp < 0x110000
    ensures Combine(SurrogatesOf(cp).0, SurrogatesOf(cp).1) == cp
  {
    var u := cp - 0x10000;
    var first, second := SurrogatesOf(cp).0, SurrogatesOf(cp).1;
    assert first == 54 * 1024 + u / 1024 && u / 1024 < 1024;
    assert second == 55 * 1024 + u % 1024;
  }
}
