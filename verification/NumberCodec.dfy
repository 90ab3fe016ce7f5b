/** JSON numbers. parse_number copies the longest run of number characters and
    hands it to strtod; print_number prints an int-range value with %d. strtod is
    modelled as exact reading of a decimal literal, without rounding. */
module NumberCodec {
  import opened Bytes

  const INT_MAX: int := 0x7FFF_FFFF
  const INT_MIN: int := -0x8000_0000

  predicate IsDigit(b: byte) { 48 <= b <= 57 }

  /** The characters parse_number collects. */
  predicate IsNumberChar(b: byte) {
    IsDigit(b) || b == PLUS || b == MINUS || b == LOWER_E || b == UPPER_E || b == DOT
  }

  /** The run of number characters that starts at i. */
  function NumberRun(c: bytes, i: nat): (run: bytes)
    requires i <= |c|
    ensures i + |run| <= |c|
    decreases |c| - i
  {
    if i < |c| && IsNumberChar(c[i]) then [c[i]] + NumberRun(c, i + 1) else []
  }

  lemma {:induction false} NumberRunIs(c: bytes, i: nat, t: bytes)
    requires At(c, i, t) && forall k :: 0 <= k < |t| ==> IsNumberChar(t[k])
    requires i + |t| < |c| ==> !IsNumberChar(c[i + |t|])
    ensures NumberRun(c, i) == t
    decreases |t|
  {
    if t != [] {
      AtByte(c, i, t, 0);
      assert [t[0]] + t[1..] == t;
      AtConcat(c, i, [t[0]], t[1..]);
      NumberRunIs(c, i + 1, t[1..]);
    }
  }

  lemma {:induction false} NumberRunIsSlice(c: bytes, i: nat)
    requires i <= |c|
    ensures NumberRun(c, i) == c[i..i + |NumberRun(c, i)|]
    decreases |c| - i
  {
    if i < |c| && IsNumberChar(c[i]) {
      NumberRunIsSlice(c, i + 1);
    }
  }

  // ---- strtod ---------------------------------------------------------------------

  function DigitsEnd(s: bytes, i: nat): (e: nat)
    requires i <= |s|
    ensures i <= e <= |s|
    decreases |s| - i
  {
    if i < |s| && IsDigit(s[i]) then DigitsEnd(s, i + 1) else i
  }

  function DigitValue(b: byte): nat {
    if IsDigit(b) then b as nat - 48 else 0
  }

  /** The value of a string of digits. */
  function DigitsValue(s: bytes): nat {
    if s == [] then 0 else 10 * DigitsValue(s[..|s| - 1]) + DigitValue(s[|s| - 1])
  }

  function Pow10(n: nat): (p: real)
    ensures p > 0.0
  {
    if n == 0 then 1.0 else 10.0 * Pow10(n - 1)
  }

  /** The value of a literal and the number of characters it takes; 0 when there is none. */
  datatype Reading = Reading(value: real, used: nat)

  /** An exponent part at i counts only if it holds a digit. */
  function Exponent(s: bytes, i: nat): (r: (int, nat))
    requires i <= |s|
    ensures i <= r.1 <= |s|
  {
    if i < |s| && (s[i] == LOWER_E || s[i] == UPPER_E) then
      var j := if i + 1 < |s| && (s[i + 1] == PLUS || s[i + 1] == MINUS) then i + 2 else i + 1;
      var e := DigitsEnd(s, j);
      if e == j then (0, i)
      else
        var magnitude: int := DigitsValue(s[j..e]);
        (if s[i + 1] == MINUS then -magnitude else magnitude, e)
    else (0, i)
  }

  /** Digits with a point between whole and fraction. */
  function Pointed(whole: bytes, fraction: bytes): real {
    DigitsValue(whole) as real + DigitsValue(fraction) as real / Pow10(|fraction|)
  }

  function Scaled(m: real, e: int): real {
    if e >= 0 then m * Pow10(e) else m / Pow10(-e)
  }

  function Strtod(s: bytes): (r: Reading)
    ensures r.used <= |s|
  {
    var signed := s != [] && (s[0] == MINUS || s[0] == PLUS);
    var i := if signed then 1 else 0;
    var j := DigitsEnd(s, i);
    var dotted := j < |s| && s[j] == DOT;
    var k := if dotted then DigitsEnd(s, j + 1) else j;
    var fraction := if dotted then s[j + 1..k] else [];
    if j == i && fraction == [] then Reading(0.0, 0)
    else
      var (exp, end) := Exponent(s, k);
      var scaled := Scaled(Pointed(s[i..j], fraction), exp);
      Reading(if signed && s[0] == MINUS then -scaled else scaled, end)
  }

  // ---- valueint -------------------------------------------------------------------

  /** C's conversion of a double to int, toward zero. */
  function Truncate(d: real): int {
    if d >= 0.0 then d.Floor else -((-d).Floor)
  }

  /** parse_number and cJSON_SetNumberHelper keep valueint saturated. */
  function ToInt(d: real): (n: int)
    ensures INT_MIN <= n <= INT_MAX
  {
    if d >= INT_MAX as real then INT_MAX
    else if d <= INT_MIN as real then INT_MIN
    else Truncate(d)
  }

  /** The numbers that print_number prints with %d. */
  predicate IsIntRange(d: real) { d == ToInt(d) as real }

  /** An int is converted to itself. */
  lemma IntIsKept(n: int)
    requires -2147483648 <= n <= 2147483647
    ensures ToInt(n as real) == n
  {
  }

  /** Between the ends, the conversion drops what is behind the point: it goes toward zero,
      by less than one. At the ends and outside, it saturates. */
  lemma IntIsTowardZero(d: real)
    ensures d >= 2147483647.0 ==> ToInt(d) == 2147483647
    ensures d <= -2147483648.0 ==> ToInt(d) == -2147483648
    ensures 0.0 <= d < 2147483647.0 ==> 0 <= ToInt(d) && ToInt(d) as real <= d < ToInt(d) as real + 1.0
    ensures -2147483648.0 < d <= 0.0 ==> ToInt(d) <= 0 && ToInt(d) as real - 1.0 < d <= ToInt(d) as real
  {
  }

  predicate IsTheInt(d: real, n: int) {
    -2147483648 <= n <= 2147483647 && d == n as real
  }

  /** The numbers printed with %d are exactly the ints. */
  lemma IntRangeIsInts(d: real)
    ensures IsIntRange(d) <==> exists n: int :: IsTheInt(d, n)
  {
    if IsIntRange(d) {
      assert IsTheInt(d, ToInt(d));
    }
    forall n: int | IsTheInt(d, n)
      ensures IsIntRange(d)
    {
      IntIsKept(n);
    }
  }

  // ---- printing with %d -----------------------------------------------------------

  function Decimal(n: nat): (s: bytes)
    ensures s != [] && forall k :: 0 <= k < |s| ==> IsDigit(s[k])
  {
    if n < 10 then [(48 + n) as byte] else Decimal(n / 10) + [(48 + n % 10) as byte]
  }

  function FormatInt(n: int): (s: bytes)
    ensures s != [] && forall k :: 0 <= k < |s| ==> IsNumberChar(s[k])
    ensures s[0] == MINUS || IsDigit(s[0])
  {
    if n < 0 then [MINUS] + Decimal(-n) else Decimal(n)
  }

  lemma {:induction false} DecimalIsReadBack(n: nat)
    ensures DigitsValue(Decimal(n)) == n
  {
    if n >= 10 {
      DecimalIsReadBack(n / 10);
      assert Decimal(n)[..|Decimal(n)| - 1] == Decimal(n / 10);
    }
  }

  function TenTo(k: nat): (p: nat)
    ensures p > 0
  {
    if k == 0 then 1 else 10 * TenTo(k - 1)
  }

  lemma QuotientIs(a: nat, d: nat, q: nat, r: nat)
    requires a == q * d + r && r < d
    ensures a / d == q
  {
    var p := a / d;
    assert a == p * d + a % d;
    if p < q {
      MoreTimes(p, q, d);
    } else if q < p {
      MoreTimes(q, p, d);
    }
  }

  lemma MoreTimes(p: nat, q: nat, d: nat)
    requires p < q
    ensures p * d + d <= q * d
  {
    assert (q - p - 1) * d >= 0;
    assert q * d == p * d + d + (q - p - 1) * d;
  }

  lemma DivideTwice(n: nat, m: nat)
    requires m > 0
    ensures n / 10 / m == n / (10 * m)
  {
    var q, r := n / 10 / m, n / 10 % m;
    assert n == 10 * (q * m + r) + n % 10;
    assert n == q * (10 * m) + (10 * r + n % 10);
    QuotientIs(n, 10 * m, q, 10 * r + n % 10);
  }

  /** Each character is the digit of its place. */
  lemma {:induction false} DecimalIsPositional(n: nat, k: nat)
    requires k < |Decimal(n)|
    ensures Decimal(n)[|Decimal(n)| - 1 - k] as int == '0' as int + n / TenTo(k) % 10
    decreases n
  {
    if k > 0 {
      DecimalIsPositional(n / 10, k - 1);
      DivideTwice(n, TenTo(k - 1));
    }
  }

  /** No leading zeros. */
  lemma {:induction false} DecimalIsCanonical(n: nat)
    ensures Decimal(n)[0] as int == '0' as int <==> n == 0
  {
    if n >= 10 {
      DecimalIsCanonical(n / 10);
    }
  }

  /** A value of at most k digits prints in at most k bytes, and %d of an int in
      at most 11: number_buffer's 26 bytes always suffice. */
  lemma {:induction false} DecimalIsShort(n: nat, k: nat)
    requires k >= 1 && n as real < Pow10(k)
    ensures |Decimal(n)| <= k
  {
    if n >= 10 {
      if k == 1 {
        assert false;
      } else {
        assert n as real < 10.0 * Pow10(k - 1);
        assert 10 * (n / 10) <= n;
        DecimalIsShort(n / 10, k - 1);
      }
    }
  }

  lemma FormatIntIsShort(n: int)
    requires INT_MIN <= n <= INT_MAX
    ensures |FormatInt(n)| <= 11
  {
    assert Pow10(2) == 100.0;
    assert Pow10(4) == 10000.0;
    assert Pow10(6) == 1000000.0;
    assert Pow10(8) == 100000000.0;
    assert Pow10(10) == 10000000000.0;
    DecimalIsShort(if n < 0 then -n else n, 10);
  }

  // ---- numerals -------------------------------------------------------------------

  predicate AllDigits(s: bytes) {
    forall k :: 0 <= k < |s| ==> IsDigit(s[k])
  }

  datatype Sign = Unsigned | Positive | Negative

  datatype Power = NoPower | Power(mark: byte, sign: Sign, digits: bytes)

  /** A decimal literal: a sign, digits, perhaps a point and digits, and a power of ten. */
  datatype Numeral = Numeral(negative: bool, whole: bytes, point: bool, fraction: bytes, power: Power)

  /** A literal that strtod reads; digits may be missing on one side of the point. */
  predicate LooseNumeral(n: Numeral) {
    && AllDigits(n.whole) && AllDigits(n.fraction) && (n.whole != [] || n.fraction != [])
    && (n.fraction != [] ==> n.point)
    && (n.power.Power? ==>
          (n.power.mark == LOWER_E || n.power.mark == UPPER_E) && n.power.digits != [] && AllDigits(n.power.digits))
  }

  /** A number in the grammar of section 6 of RFC 8259; there may also be leading zeros,
      which the grammar excludes. */
  predicate ValidNumeral(n: Numeral) {
    LooseNumeral(n) && n.whole != [] && (n.point ==> n.fraction != [])
  }

  function SpellSign(sign: Sign): bytes {
    match sign
    case Unsigned => []
    case Positive => [PLUS]
    case Negative => [MINUS]
  }

  function SpellPower(p: Power): bytes {
    if p.NoPower? then [] else [p.mark] + SpellSign(p.sign) + p.digits
  }

  function SpellFraction(n: Numeral): bytes {
    if n.point then [DOT] + n.fraction else []
  }

  function SpellNumeral(n: Numeral): bytes {
    (if n.negative then [MINUS] else []) + (n.whole + (SpellFraction(n) + SpellPower(n.power)))
  }

  /** Ten to any integer power. */
  function Ten(e: int): real {
    if e >= 0 then Pow10(e) else 1.0 / Pow10(-e)
  }

  function PowerOf(p: Power): int {
    if p.NoPower? then 0
    else
      var magnitude: int := DigitsValue(p.digits);
      if p.sign == Negative then -magnitude else magnitude
  }

  /** What a numeral denotes but for the sign: all its digits as one integer, times a
      power of ten. */
  function Magnitude(n: Numeral): real {
    DigitsValue(n.whole + n.fraction) as real * Ten(PowerOf(n.power) - |n.fraction|)
  }

  function Denoted(n: Numeral): real {
    if n.negative then -Magnitude(n) else Magnitude(n)
  }

  lemma NoDigits()
    ensures DigitsValue([]) == 0 && Pow10(0) == 1.0
  {
  }

  lemma DigitsSnoc(s: bytes, d: byte)
    ensures DigitsValue(s + [d]) == 10 * DigitsValue(s) + DigitValue(d)
  {
    assert (s + [d])[..|s|] == s;
  }

  lemma PowStep(n: nat)
    ensures Pow10(n + 1) == 10.0 * Pow10(n)
  {
  }

  lemma {:induction false} DigitsOfBoth(a: bytes, b: bytes)
    ensures DigitsValue(a + b) as real == DigitsValue(a) as real * Pow10(|b|) + DigitsValue(b) as real
    decreases |b|
  {
    hide DigitsValue, Pow10;
    NoDigits();
    if b == [] {
      assert a + b == a;
    } else {
      var front, d := b[..|b| - 1], b[|b| - 1];
      DigitsOfBoth(a, front);
      DigitsSnoc(a + front, d);
      DigitsSnoc(front, d);
      assert a + b == (a + front) + [d] && b == front + [d];
      PowStep(|front|);
      OneMoreDigit(DigitsValue(a), DigitsValue(front), DigitValue(d), DigitsValue(a + front), Pow10(|front|));
    }
  }

  lemma OneMoreDigit(a: nat, b: nat, last: nat, both: nat, p: real)
    requires both as real == a as real * p + b as real
    ensures (10 * both + last) as real == a as real * (10.0 * p) + (10 * b + last) as real
  {
    assert a as real * (10.0 * p) == 10.0 * (a as real * p);
  }

  lemma TenTimes(e: int)
    ensures Ten(e) == 10.0 * Ten(e - 1)
  {
    if e <= 0 {
      var p := Pow10(-e);
      assert Pow10(1 - e) == 10.0 * p;
      assert 10.0 * (1.0 / (10.0 * p)) == 1.0 / p;
    }
  }

  /** Shifting the point. */
  lemma {:induction false} TenShifts(e: int, n: nat)
    ensures Ten(e - n) * Pow10(n) == Ten(e)
    decreases n
  {
    hide Ten;
    if n > 0 {
      TenShifts(e - 1, n - 1);
      TenTimes(e);
      var t, p := Ten(e - n), Pow10(n - 1);
      assert t * (10.0 * p) == 10.0 * (t * p);
    }
  }

  lemma Rescaled(a: real, b: real, p: real, t: real, u: real)
    requires p > 0.0 && u * p == t
    ensures (a + b / p) * t == (a * p + b) * u
  {
    var q := b / p;
    assert q * p == b;
    assert (a + q) * p == a * p + b;
    assert (a + q) * (u * p) == ((a + q) * p) * u;
  }

  lemma ScaledIsTimes(m: real, e: int)
    ensures Scaled(m, e) == m * Ten(e)
  {
    if e < 0 {
      var p := Pow10(-e);
      assert m / p == m * (1.0 / p);
    }
  }

  /** Digits with a point in them, scaled, are the digits as one integer, scaled by less. */
  lemma PointMoves(n: Numeral)
    ensures Scaled(Pointed(n.whole, n.fraction), PowerOf(n.power)) == Magnitude(n)
  {
    hide Ten, Pow10, DigitsValue, Scaled, PowerOf;
    var e, places := PowerOf(n.power), |n.fraction|;
    ScaledIsTimes(Pointed(n.whole, n.fraction), e);
    DigitsOfBoth(n.whole, n.fraction);
    TenShifts(e, places);
    Rescaled(DigitsValue(n.whole) as real, DigitsValue(n.fraction) as real, Pow10(places), Ten(e), Ten(e - places));
  }

  lemma {:induction false} DigitsStop(s: bytes, i: nat, j: nat)
    requires i <= j <= |s| && (forall k :: i <= k < j ==> IsDigit(s[k])) && (j < |s| ==> !IsDigit(s[j]))
    ensures DigitsEnd(s, i) == j
    decreases j - i
  {
    if i < j {
      DigitsStop(s, i + 1, j);
    }
  }

  /** strtod reads the whole of an exponent part that stands at the end. */
  lemma PowerIsRead(s: bytes, k: nat, n: Numeral)
    requires LooseNumeral(n) && k <= |s| && s[k..] == SpellPower(n.power)
    ensures Exponent(s, k) == (PowerOf(n.power), |s|)
  {
    if n.power.Power? {
      var sign := SpellSign(n.power.sign);
      var j, t := k + 1 + |sign|, s[k..];
      assert s[j..] == n.power.digits == s[j..|s|];
      assert s[k] == t[0];
      assert sign != [] ==> s[k + 1] == t[1] == sign[0];
      forall m | j <= m < |s|
        ensures IsDigit(s[m])
      {
        assert s[m] == s[j..][m - j];
      }
      DigitsStop(s, j, |s|);
    }
  }

  lemma DigitsStand(s: bytes, i: nat, digits: bytes)
    requires i + |digits| <= |s| && s[i..i + |digits|] == digits && AllDigits(digits)
    requires i + |digits| < |s| ==> !IsDigit(s[i + |digits|])
    ensures DigitsEnd(s, i) == i + |digits|
  {
    forall k | i <= k < i + |digits|
      ensures IsDigit(s[k])
    {
      assert s[k] == digits[k - i];
    }
    DigitsStop(s, i, i + |digits|);
  }

  /** Digits, and what follows them up to the end. */
  lemma DigitsThen(s: bytes, i: nat, digits: bytes, rest: bytes)
    requires i <= |s| && s[i..] == digits + rest && AllDigits(digits) && (rest != [] ==> !IsDigit(rest[0]))
    ensures var j := i + |digits|; j <= |s| && s[i..j] == digits && s[j..] == rest && DigitsEnd(s, i) == j
  {
    var j := i + |digits|;
    assert s[i..j] == s[i..][..|digits|] == digits;
    assert s[j..] == s[i..][|digits|..] == rest;
    assert j < |s| ==> s[j] == rest[0];
    DigitsStand(s, i, digits);
  }

  /** Behind the digits comes a point, an exponent mark, or nothing. */
  lemma AfterDigits(n: Numeral)
    requires LooseNumeral(n)
    ensures var f, p := SpellFraction(n), SpellPower(n.power);
      && |f| == (if n.point then 1 + |n.fraction| else 0)
      && (p != [] ==> !IsDigit(p[0]) && p[0] != DOT && p[0] != MINUS && p[0] != PLUS)
      && (f + p != [] ==> !IsDigit((f + p)[0]) && (f + p)[0] != MINUS && (f + p)[0] != PLUS)
      && ((f + p != [] && (f + p)[0] == DOT) <==> n.point)
      && (n.point ==> (f + p)[1..] == n.fraction + p)
      && (n.whole == [] ==> n.point)
  {
  }

  /** Where the digits in front of the point stand in a spelling. */
  lemma SpelledWhole(n: Numeral)
    requires LooseNumeral(n)
    ensures var s, i := SpellNumeral(n), if n.negative then 1 else 0;
      var j := i + |n.whole|;
      && s != [] && (i == 1 <==> s[0] == MINUS) && s[0] != PLUS
      && j <= |s| && s[i..j] == n.whole && DigitsEnd(s, i) == j
      && s[j..] == SpellFraction(n) + SpellPower(n.power)
  {
    hide DigitsEnd, SpellPower, SpellFraction, AllDigits;
    var sign, after := if n.negative then [MINUS] else [], SpellFraction(n) + SpellPower(n.power);
    var s, i := SpellNumeral(n), |sign|;
    AfterDigits(n);
    assert s[i..] == n.whole + after;
    assert s[i] == s[i..][0] == if n.whole != [] then n.whole[0] else after[0];
    if n.whole != [] {
      AllDigitsAt(n.whole, 0);
    }
    DigitsThen(s, i, n.whole, after);
  }

  lemma AllDigitsAt(s: bytes, k: nat)
    requires AllDigits(s) && k < |s|
    ensures IsDigit(s[k])
  {
  }

  /** And where the other parts stand, behind the digits that end at j. */
  lemma SpelledRest(n: Numeral, s: bytes, j: nat)
    requires LooseNumeral(n) && j <= |s| && s[j..] == SpellFraction(n) + SpellPower(n.power)
    ensures var k := j + |SpellFraction(n)|;
      && k <= |s|
      && ((j < |s| && s[j] == DOT) <==> n.point)
      && (n.point ==> j < k && s[j + 1..k] == n.fraction && DigitsEnd(s, j + 1) == k)
      && (!n.point ==> j == k)
      && s[k..] == SpellPower(n.power)
  {
    hide DigitsEnd, SpellPower, SpellFraction, AllDigits;
    var f, p := SpellFraction(n), SpellPower(n.power);
    AfterDigits(n);
    assert j < |s| ==> s[j] == s[j..][0];
    assert s[j + |f|..] == s[j..][|f|..] == p;
    if n.point {
      assert s[j + 1..] == s[j..][1..];
      DigitsThen(s, j + 1, n.fraction, p);
    }
  }

  /** strtod on a text whose parts are known. */
  lemma StrtodAssembles(s: bytes, negative: bool, j: nat, k: nat, e: int)
    requires s != [] && (negative <==> s[0] == MINUS) && s[0] != PLUS
    requires var i := if negative then 1 else 0; i <= j <= |s| && DigitsEnd(s, i) == j && (i < j || j + 1 < k)
    requires j <= k <= |s| && if j < |s| && s[j] == DOT then j < k && DigitsEnd(s, j + 1) == k else k == j
    requires Exponent(s, k) == (e, |s|)
    ensures var scaled := Scaled(Pointed(s[if negative then 1 else 0..j], if j == k then [] else s[j + 1..k]), e);
            Strtod(s) == Reading(if negative then -scaled else scaled, |s|)
  {
    hide DigitsEnd, Exponent, Scaled, Pointed;
  }

  /** strtod reads the whole of every numeral, and reads what it denotes. */
  lemma NumeralIsRead(n: Numeral)
    requires LooseNumeral(n)
    ensures Strtod(SpellNumeral(n)) == Reading(Denoted(n), |SpellNumeral(n)|)
  {
    hide DigitsEnd, Exponent, SpellNumeral, Strtod, Magnitude, Scaled, Pointed, PowerOf;
    var s, e := SpellNumeral(n), PowerOf(n.power);
    var j := (if n.negative then 1 else 0) + |n.whole|;
    var k := j + |SpellFraction(n)|;
    SpelledWhole(n);
    SpelledRest(n, s, j);
    PowerIsRead(s, k, n);
    StrtodAssembles(s, n.negative, j, k, e);
    PointMoves(n);
  }

  const SAMPLE: Numeral := Numeral(true, [49], true, [53], Power(101, Unsigned, [50]))

  lemma SampleIsSpelled()
    ensures LooseNumeral(SAMPLE) && SpellNumeral(SAMPLE) == [45, 49, 46, 53, 101, 50]
  {
    hide DigitsValue;
    assert SpellPower(SAMPLE.power) == [101, 50] && SpellFraction(SAMPLE) == [46, 53];
  }

  lemma SampleDigits()
    ensures DigitsValue([49, 53]) == 15 && DigitsValue([50]) == 2
  {
    NoDigits();
    DigitsSnoc([], 49);
    DigitsSnoc([49], 53);
    DigitsSnoc([], 50);
    assert [] + [49] == [49] && [49] + [53] == [49, 53] && [] + [50] == [50];
  }

  lemma SampleDenotes()
    ensures Denoted(SAMPLE) == -150.0
  {
    hide DigitsValue, Pow10;
    SampleDigits();
    NoDigits();
    PowStep(0);
    assert SAMPLE.whole + SAMPLE.fraction == [49, 53];
    assert Ten(1) == 10.0;
  }

  /** For instance, -1.5e2. */
  lemma ANumeralIsRead()
    ensures Strtod([45, 49, 46, 53, 101, 50]) == Reading(-150.0, 6)
  {
    hide Strtod, LooseNumeral, SpellNumeral, Denoted;
    SampleIsSpelled();
    SampleDenotes();
    NumeralIsRead(SAMPLE);
  }

  lemma NumeralIsARun(n: Numeral)
    requires ValidNumeral(n)
    ensures SpellNumeral(n) != [] && forall k :: 0 <= k < |SpellNumeral(n)| ==> IsNumberChar(SpellNumeral(n)[k])
    ensures SpellNumeral(n)[0] == MINUS || IsDigit(SpellNumeral(n)[0])
  {
  }

  // ---- and only numerals are read -----------------------------------------------------

  lemma {:induction false} DigitsAreRead(s: bytes, i: nat)
    requires i <= |s|
    ensures AllDigits(s[i..DigitsEnd(s, i)])
    decreases |s| - i
  {
    if i < |s| && IsDigit(s[i]) {
      DigitsAreRead(s, i + 1);
      var e := DigitsEnd(s, i);
      assert s[i..e] == [s[i]] + s[i + 1..e];
    }
  }

  /** The exponent part that strtod takes at k. */
  lemma ExponentIsAPower(s: bytes, k: nat) returns (p: Power)
    requires k <= |s|
    ensures var (exp, end) := Exponent(s, k); s[k..end] == SpellPower(p) && exp == PowerOf(p)
    ensures p.Power? ==> (p.mark == LOWER_E || p.mark == UPPER_E) && p.digits != [] && AllDigits(p.digits)
  {
    var (exp, end) := Exponent(s, k);
    p := NoPower;
    if end > k {
      var sign := if s[k + 1] == PLUS then Positive else if s[k + 1] == MINUS then Negative else Unsigned;
      var j := k + 1 + |SpellSign(sign)|;
      p := Power(s[k], sign, s[j..end]);
      DigitsAreRead(s, j);
      assert s[k..end] == [s[k]] + s[k + 1..j] + s[j..end];
      assert s[k + 1..j] == SpellSign(sign);
    }
  }

  /** What strtod reads is a numeral, and it reads what that denotes. */
  lemma ReadIsANumeral(s: bytes) returns (n: Numeral)
    requires s != [] && s[0] != PLUS && Strtod(s).used > 0
    ensures LooseNumeral(n) && Strtod(s) == Reading(Denoted(n), |SpellNumeral(n)|)
    ensures s[..Strtod(s).used] == SpellNumeral(n)
  {
    hide DigitsEnd, Exponent, Magnitude, Scaled, Pointed, PowerOf, SpellPower, AllDigits;
    var negative := s[0] == MINUS;
    var i := if negative then 1 else 0;
    var j := DigitsEnd(s, i);
    var point := j < |s| && s[j] == DOT;
    var k := if point then DigitsEnd(s, j + 1) else j;
    var end := Exponent(s, k).1;
    var power := ExponentIsAPower(s, k);
    n := Numeral(negative, s[i..j], point, if point then s[j + 1..k] else [], power);
    DigitsAreRead(s, i);
    if point {
      DigitsAreRead(s, j + 1);
    }
    NoneIsAllDigits();
    PointMoves(n);
    assert s[..end] == s[..i] + (s[i..j] + (s[j..k] + s[k..end]));
    assert s[j..k] == SpellFraction(n);
  }

  /** More text can only add digits, and not behind something else. */
  lemma {:induction false} DigitsGrow(s: bytes, m: nat, i: nat)
    requires i <= m <= |s|
    ensures DigitsEnd(s, i) >= DigitsEnd(s[..m], i)
    ensures DigitsEnd(s[..m], i) < m ==> DigitsEnd(s, i) == DigitsEnd(s[..m], i)
    decreases m - i
  {
    if i < m && IsDigit(s[i]) {
      DigitsGrow(s, m, i + 1);
    }
  }

  lemma ExponentGrows(s: bytes, m: nat, k: nat)
    requires k < m <= |s| && Exponent(s[..m], k).1 == m
    ensures Exponent(s, k).1 >= m
  {
    var t := s[..m];
    var j := if k + 1 < m && (t[k + 1] == PLUS || t[k + 1] == MINUS) then k + 2 else k + 1;
    DigitsGrow(s, m, j);
  }

  lemma ReadingGrows(s: bytes, m: nat)
    requires 0 < m <= |s| && Strtod(s[..m]).used == m
    ensures Strtod(s).used >= m
  {
    hide DigitsEnd, Exponent, Scaled, Pointed;
    var t := s[..m];
    var i := if t[0] == MINUS || t[0] == PLUS then 1 else 0;
    var j := DigitsEnd(t, i);
    DigitsGrow(s, m, i);
    if j < m {
      var k := if t[j] == DOT then DigitsEnd(t, j + 1) else j;
      if t[j] == DOT {
        DigitsGrow(s, m, j + 1);
      }
      if k < m {
        ExponentGrows(s, m, k);
      }
    }
  }

  /** And it is the longest one: no numeral at the start of the text goes further. */
  lemma ReadIsLongest(s: bytes, n: Numeral)
    requires LooseNumeral(n) && SpellNumeral(n) <= s
    ensures Strtod(s).used >= |SpellNumeral(n)|
  {
    hide Strtod, LooseNumeral;
    NumeralIsRead(n);
    assert s[..|SpellNumeral(n)|] == SpellNumeral(n);
    if SpellNumeral(n) != [] {
      ReadingGrows(s, |SpellNumeral(n)|);
    }
  }

  lemma NoneIsAllDigits()
    ensures AllDigits([])
  {
  }

  /** The numeral that %d writes. */
  function IntNumeral(n: int): Numeral {
    Numeral(n < 0, Decimal(if n < 0 then -n else n), false, [], NoPower)
  }

  lemma FormatIntIsANumeral(n: int)
    ensures ValidNumeral(IntNumeral(n)) && Denoted(IntNumeral(n)) == n as real
    ensures SpellNumeral(IntNumeral(n)) == FormatInt(n)
  {
    hide DigitsValue, Decimal;
    var m: nat := if n < 0 then -n else n;
    DecimalIsReadBack(m);
    NoDigits();
    assert Decimal(m) + [] == Decimal(m);
  }

  /** Number inverse: strtod reads the whole of a %d rendering, and reads its value. */
  lemma FormatIntIsReadBack(n: int)
    ensures Strtod(FormatInt(n)) == Reading(n as real, |FormatInt(n)|)
  {
    FormatIntIsANumeral(n);
    NumeralIsRead(IntNumeral(n));
  }

  lemma FormatIntIsNulFree(n: int)
    ensures NUL !in FormatInt(n)
  {
  }
}
