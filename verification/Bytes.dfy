/** Bytes, C strings, and the character constants that the JSON code names. */
module Bytes {

  newtype byte = b: int | 0 <= b < 256
  type bytes = seq<byte>

  const QUOTE: byte := 34
  const PLUS: byte := 43
  const COMMA: byte := 44
  const MINUS: byte := 45
  const DOT: byte := 46
  const SLASH: byte := 47
  const COLON: byte := 58
  const LBRACKET: byte := 91
  const BACKSLASH: byte := 92
  const RBRACKET: byte := 93
  const LOWER_B: byte := 98
  const LOWER_E: byte := 101
  const LOWER_F: byte := 102
  const LOWER_N: byte := 110
  const LOWER_R: byte := 114
  const LOWER_T: byte := 116
  const LOWER_U: byte := 117
  const UPPER_E: byte := 69
  const LBRACE: byte := 123
  const RBRACE: byte := 125
  const NUL: byte := 0
  const BACKSPACE: byte := 8
  const TAB: byte := 9
  const NEWLINE: byte := 10
  const FORMFEED: byte := 12
  const RETURN: byte := 13
  const SPACE: byte := 32

  const NULL_TEXT: bytes := [110, 117, 108, 108]
  const FALSE_TEXT: bytes := [102, 97, 108, 115, 101]
  const TRUE_TEXT: bytes := [116, 114, 117, 101]

  /** The bytes of a string of ASCII characters. */
  function Ascii(s: string): (t: bytes)
    requires forall i :: 0 <= i < |s| ==> s[i] as int < 128
    ensures |t| == |s|
  {
    seq(|s|, i requires 0 <= i < |s| => s[i] as int as byte)
  }

  /** The constants are the characters that they are named for, and the control characters
      have their ASCII codes. */
  lemma CharactersAreNamed()
    ensures Ascii("\"+,-./:[\\]bfnrtuE{} ") == [QUOTE, PLUS, COMMA, MINUS, DOT, SLASH, COLON, LBRACKET, BACKSLASH,
                                               RBRACKET, LOWER_B, LOWER_F, LOWER_N, LOWER_R, LOWER_T, LOWER_U,
                                               UPPER_E, LBRACE, RBRACE, SPACE]
    ensures Ascii("e\0\t\n\r") == [LOWER_E, NUL, TAB, NEWLINE, RETURN] && BACKSPACE == 8 && FORMFEED == 12
  {
    var s, t := "\"+,-./:[\\]bfnrtuE{} ", "e\0\t\n\r";
    assert forall i :: 0 <= i < |s| ==> Ascii(s)[i] as int == s[i] as int;
    assert forall i :: 0 <= i < |t| ==> Ascii(t)[i] as int == t[i] as int;
  }

  predicate ByteIs(c: bytes, off: nat, b: byte) {
    off < |c| && c[off] == b
  }

  /** Marks an index at which At is to be looked up. */
  predicate Here(k: int) { true }

  /** The text t stands in c at offset off. The trigger keeps the quantifier out of
      proofs that only pass such facts on: see AtByte. */
  ghost predicate At(c: bytes, off: nat, t: bytes) {
    && off + |t| <= |c|
    && forall k: nat {:trigger Here(k)} :: Here(k) && k < |t| ==> c[off + k] == t[k]
  }

  lemma AtByte(c: bytes, off: nat, t: bytes, k: nat)
    requires At(c, off, t) && k < |t|
    ensures off + |t| <= |c| && c[off + k] == t[k]
  {
    assert Here(k);
  }

  lemma AtConcat(c: bytes, off: nat, a: bytes, b: bytes)
    ensures At(c, off, a + b) <==> At(c, off, a) && At(c, off + |a|, b)
  {
    var t := a + b;
    if At(c, off, t) {
      forall k: nat | k < |a|
        ensures c[off + k] == a[k]
      {
        AtByte(c, off, t, k);
      }
      forall k: nat | k < |b|
        ensures c[off + |a| + k] == b[k]
      {
        AtByte(c, off, t, |a| + k);
      }
    }
    if At(c, off, a) && At(c, off + |a|, b) {
      forall k: nat | k < |t|
        ensures c[off + k] == t[k]
      {
        if k < |a| {
          AtByte(c, off, a, k);
        } else {
          AtByte(c, off + |a|, b, k - |a|);
        }
      }
    }
  }

  lemma AtCons(c: bytes, off: nat, b: byte, t: bytes)
    ensures At(c, off, [b] + t) <==> off < |c| && c[off] == b && At(c, off + 1, t)
  {
    AtConcat(c, off, [b], t);
    if At(c, off, [b]) {
      AtByte(c, off, [b], 0);
    }
  }

  lemma AtIsSlice(c: bytes, off: nat, t: bytes)
    ensures At(c, off, t) <==> off + |t| <= |c| && c[off..off + |t|] == t
  {
    if off + |t| <= |c| {
      var u := c[off..off + |t|];
      if At(c, off, t) {
        forall k: nat | k < |t|
          ensures u[k] == t[k]
        {
          AtByte(c, off, t, k);
        }
        assert u == t;
      }
    }
  }

  /** What strlen leaves of a byte string: everything before the first NUL. */
  function UpToNul(s: bytes): bytes {
    if s == [] || s[0] == NUL then [] else [s[0]] + UpToNul(s[1..])
  }

  lemma {:induction false} UpToNulCuts(s: bytes)
    ensures NUL !in UpToNul(s) && UpToNul(s) <= s
    ensures |UpToNul(s)| < |s| ==> s[|UpToNul(s)|] == NUL
  {
    if s != [] && s[0] != NUL {
      UpToNulCuts(s[1..]);
    }
  }

  lemma {:induction false} UpToNulIsIdentity(s: bytes)
    requires NUL !in s
    ensures UpToNul(s) == s
  {
    if s != [] {
      UpToNulIsIdentity(s[1..]);
    }
  }
}
