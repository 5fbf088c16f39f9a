/** JSON number tokens, the rational numbers they denote, and the exact comparison
    of source/connector_lifecycle.go, which never goes through floating point. */
module JsonNumber {
  import opened Wrappers
  import opened Text

  // ---------- tokens: section 6 of RFC 8259 ----------

  predicate IsDigit(c: char) { '0' <= c <= '9' }

  predicate AllDigits(s: string) { forall i | 0 <= i < |s| :: IsDigit(s[i]) }

  datatype ExponentSign = Unsigned | Plus | Minus

  datatype Exponent = Exponent(upperCase: bool, sign: ExponentSign, digits: string)

  datatype Token = Token(negative: bool, whole: string, fraction: Option<string>, exponent: Option<Exponent>)

  predicate WellFormed(t: Token) {
    && AllDigits(t.whole) && t.whole != "" && (t.whole[0] == '0' ==> |t.whole| == 1)
    && (t.fraction.Some? ==> AllDigits(t.fraction.value) && t.fraction.value != "")
    && (t.exponent.Some? ==> AllDigits(t.exponent.value.digits) && t.exponent.value.digits != "")
  }

  function FractionDigits(t: Token): string { if t.fraction.Some? then t.fraction.value else "" }

  function PrintMantissa(t: Token): string {
    t.whole + (if t.fraction.Some? then "." + t.fraction.value else "")
  }

  function PrintExponent(e: Exponent): string {
    (match e.sign case Unsigned => "" case Plus => "+" case Minus => "-") + e.digits
  }

  function PrintUnsigned(t: Token): string {
    if t.exponent.None? then PrintMantissa(t)
    else PrintMantissa(t) + [if t.exponent.value.upperCase then 'E' else 'e'] + PrintExponent(t.exponent.value)
  }

  /** The token's spelling. */
  function Print(t: Token): string {
    if t.negative then ['-'] + PrintUnsigned(t) else PrintUnsigned(t)
  }

  /** `text` is the token up to surrounding whitespace. */
  ghost predicate Spells(text: string, t: Token) {
    WellFormed(t) && Trim(IsSpace, text) == Print(t)
  }

  // ---------- denotation ----------

  function DigitValue(c: char): nat
    requires IsDigit(c)
  { c as int - '0' as int }

  function Natural(s: string): nat
    requires AllDigits(s)
  { if s == "" then 0 else 10 * Natural(s[..|s| - 1]) + DigitValue(s[|s| - 1]) }

  /** The value of the digits after a decimal point, read as 0.s */
  function FractionValue(s: string): real
    requires AllDigits(s)
  { if s == "" then 0.0 else (DigitValue(s[0]) as real + FractionValue(s[1..])) / 10.0 }

  function Power10(e: int): real
    decreases if e < 0 then -e else e
  {
    if e == 0 then 1.0 else if e > 0 then 10.0 * Power10(e - 1) else Power10(e + 1) / 10.0
  }

  function ExponentValue(e: Exponent): int
    requires AllDigits(e.digits)
  { var n: int := Natural(e.digits); if e.sign == Minus then -n else n }

  function Scale(t: Token): int
    requires WellFormed(t)
  { if t.exponent.Some? then ExponentValue(t.exponent.value) else 0 }

  /** The value of the part before the exponent. */
  function MantissaValue(t: Token): real
    requires WellFormed(t)
  { Natural(t.whole) as real + FractionValue(FractionDigits(t)) }

  function Magnitude(t: Token): real
    requires WellFormed(t)
  { MantissaValue(t) * Power10(Scale(t)) }

  /** The rational number a token denotes. */
  function Denote(t: Token): real
    requires WellFormed(t)
  { if t.negative then -Magnitude(t) else Magnitude(t) }

  // ---------- the source's normal form ----------

  datatype ConnectorNumber = ConnectorNumber(negative: bool, zero: bool, significand: string, exponent: int)

  /** A non-empty digit string with no zero at either end. */
  predicate Stripped(s: string) {
    s != "" && AllDigits(s) && s[0] != '0' && s[|s| - 1] != '0'
  }

  /** z is the product of x and y. Naming the product keeps the solver's non-linear reasoning local. */
  ghost predicate Product(x: real, y: real, z: real) { x * y == z }

  /** `n` is the normal form of the number `x`. */
  ghost predicate Represents(n: ConnectorNumber, x: real) {
    if n.zero then x == 0.0
    else
      && Stripped(n.significand)
      && Product(Natural(n.significand) as real, Power10(n.exponent), if n.negative then -x else x)
  }

  /** The comparison at the end of equalConnectorNumbers. */
  predicate SameNumber(m: ConnectorNumber, n: ConnectorNumber) {
    if m.zero || n.zero then m.zero == n.zero
    else m.negative == n.negative && m.significand == n.significand && m.exponent == n.exponent
  }

  // ---------- arithmetic of powers of ten ----------

  lemma PowerPositive(e: int)
    ensures Power10(e) > 0.0
    decreases if e < 0 then -e else e
  {}

  lemma PowerStep(e: int)
    ensures Power10(e + 1) == 10.0 * Power10(e)
  {}

  lemma ProductOne(x: real, y: real)
    requires y == 1.0
    ensures Product(x, y, x)
  {}

  lemma ProductOfZero(x: real, y: real, z: real)
    requires x == 0.0 && Product(x, y, z)
    ensures z == 0.0
  {}

  lemma ProductNonZero(x: real, y: real, z: real)
    requires z != 0.0 && Product(x, y, z)
    ensures x != 0.0
  {}

  lemma ProductTenfold(x: real, y: real, z: real)
    ensures Product(x, y, z) <==> Product(x, 10.0 * y, 10.0 * z)
  {}

  lemma ProductAssociates(x: real, y: real, z: real, xy: real, yz: real, xyz: real)
    requires Product(x, y, xy) && Product(y, z, yz)
    ensures Product(xy, z, xyz) <==> Product(x, yz, xyz)
  {
    assert (x * y) * z == x * (y * z);
  }

  lemma ProductCancels(a: nat, b: nat, p: real, z: real)
    requires p > 0.0 && Product(a as real, p, z) && Product(b as real, p, z)
    ensures a == b
  {
    assert (a as real - b as real) * p == 0.0;
  }

  lemma ProductPositive(x: real, y: real, z: real)
    requires x > 0.0 && y > 0.0 && Product(x, y, z)
    ensures z > 0.0
  {}

  lemma {:induction false} PowerAdd(a: int, b: int)
    ensures Product(Power10(a), Power10(b), Power10(a + b))
    decreases if b < 0 then -b else b
  {
    if b == 0 {
      ProductOne(Power10(a), Power10(b));
    } else if b > 0 {
      PowerAdd(a, b - 1);
      PowerStep(a + b - 1);
      PowerStep(b - 1);
      ProductTenfold(Power10(a), Power10(b - 1), Power10(a + b - 1));
    } else {
      PowerAdd(a, b + 1);
      PowerStep(a + b);
      PowerStep(b);
      ProductTenfold(Power10(a), Power10(b), Power10(a + b));
    }
  }

  lemma {:induction false} PowerIsNatural(d: nat) returns (n: nat)
    ensures Power10(d) == n as real
  {
    if d == 0 { n := 1; } else { var k := PowerIsNatural(d - 1); n := 10 * k; }
  }

  // ---------- digit strings ----------

  lemma NaturalSnoc(s: string, c: char)
    requires AllDigits(s) && IsDigit(c)
    ensures AllDigits(s + [c]) && Natural(s + [c]) == 10 * Natural(s) + DigitValue(c)
  {
    assert (s + [c])[..|s|] == s;
  }

  lemma {:induction false} NaturalConcat(a: string, b: string)
    requires AllDigits(a) && AllDigits(b)
    ensures AllDigits(a + b)
    ensures Product(Natural(a) as real, Power10(|b|), Natural(a + b) as real - Natural(b) as real)
  {
    if b == "" {
      assert a + b == a;
      ProductOne(Natural(a) as real, Power10(0));
    } else {
      var init, last := b[..|b| - 1], b[|b| - 1];
      NaturalConcat(a, init);
      NaturalSnoc(a + init, last);
      assert a + b == a + init + [last];
      PowerStep(|init|);
      ProductTenfold(Natural(a) as real, Power10(|init|), Natural(a + init) as real - Natural(init) as real);
    }
  }

  lemma ProductSplits(x: real, y: real, q: real, xq: real, yq: real)
    requires Product(x, q, xq) && Product(y, q, yq)
    ensures Product(x + y, q, xq + yq)
  {}

  /** Reading the digits after the point as 0.s scales their value by the number of digits. */
  lemma {:induction false} FractionIsScaledNatural(s: string)
    requires AllDigits(s)
    ensures Product(Natural(s) as real, Power10(-|s|), FractionValue(s))
  {
    if s == "" {
      ProductOne(0.0, Power10(0));
    } else {
      var tail := s[1..];
      var h, n := DigitValue(s[0]) as real, Natural(tail) as real;
      var p, q := Power10(|tail|), Power10(-|tail|);
      assert Natural(s[..1]) == DigitValue(s[0]) by { NaturalSnoc("", s[0]); assert "" + [s[0]] == s[..1]; }
      FractionIsScaledNatural(tail);
      NaturalConcat(s[..1], tail);
      assert s[..1] + tail == s;
      PowerAdd(|tail|, -|tail|);
      assert Power10(0) == 1.0;
      ProductOne(h, 1.0);
      ProductAssociates(h, p, q, Natural(s) as real - n, 1.0, h);
      ProductSplits(Natural(s) as real - n, n, q, h, FractionValue(tail));
      PowerStep(-|s|);
      ProductTenfold(Natural(s) as real, Power10(-|s|), FractionValue(s));
    }
  }

  predicate IsZero(c: char) { c == '0' }

  lemma {:induction false} TrimLeftZeros(s: string)
    requires AllDigits(s)
    ensures var r := TrimLeft(IsZero, s);
            AllDigits(r) && Natural(r) == Natural(s) && (r != "" ==> r[0] != '0')
  {
    if s != "" && s[0] == '0' {
      TrimLeftZeros(s[1..]);
      LeadingZero(s);
    }
  }

  lemma {:induction false} LeadingZero(s: string)
    requires AllDigits(s) && s != "" && s[0] == '0'
    ensures Natural(s) == Natural(s[1..])
  {
    if |s| > 1 {
      LeadingZero(s[..|s| - 1]);
      assert s[1..][..|s| - 2] == s[..|s| - 1][1..];
    }
  }

  lemma {:induction false} TrimRightZeros(s: string)
    requires AllDigits(s)
    ensures var r := TrimRight(IsZero, s);
            && |r| <= |s| && r == s[..|r|] && AllDigits(r)
            && Product(Natural(r) as real, Power10(|s| - |r|), Natural(s) as real)
            && (r != "" ==> r[|r| - 1] != '0')
  {
    var r := TrimRight(IsZero, s);
    if s != "" && s[|s| - 1] == '0' {
      var init := s[..|s| - 1];
      TrimRightZeros(init);
      PowerStep(|init| - |r|);
      ProductTenfold(Natural(r) as real, Power10(|init| - |r|), Natural(init) as real);
    } else {
      ProductOne(Natural(s) as real, Power10(0));
    }
  }

  lemma {:induction false} NaturalPositive(s: string)
    requires AllDigits(s) && s != "" && s[0] != '0'
    ensures Natural(s) > 0
  {
    if |s| > 1 {
      NaturalPositive(s[..|s| - 1]);
    }
  }

  /** Digit strings without leading zeros are determined by their value. */
  lemma {:induction false} NaturalInjective(a: string, b: string)
    requires AllDigits(a) && AllDigits(b)
    requires (a != "" ==> a[0] != '0') && (b != "" ==> b[0] != '0')
    requires Natural(a) == Natural(b)
    ensures a == b
  {
    if a == "" {
      if b != "" { NaturalPositive(b); }
    } else if b == "" {
      NaturalPositive(a);
    } else {
      var ai, bi := a[..|a| - 1], b[..|b| - 1];
      assert DigitValue(a[|a| - 1]) == DigitValue(b[|b| - 1]) && Natural(ai) == Natural(bi);
      NaturalInjective(ai, bi);
      assert a == ai + [a[|a| - 1]] && b == bi + [b[|b| - 1]];
    }
  }

  // ---------- uniqueness of the normal form ----------

  lemma StrippedNotMultipleOfTen(s: string)
    requires Stripped(s)
    ensures Natural(s) % 10 != 0
  {}

  /** Writing the same number with a smaller exponent needs a multiple of ten. */
  lemma SmallerExponent(a: nat, i: int, b: nat, j: int, z: real)
    requires i > j && Product(a as real, Power10(i), z) && Product(b as real, Power10(j), z)
    ensures b % 10 == 0
  {
    var k := PowerIsNatural(i - j - 1);
    var n := 10 * k;
    assert Power10(i - j) == n as real;
    PowerAdd(i - j, j);
    PowerPositive(j);
    var an := a * n;
    assert Product(a as real, n as real, an as real) by { assert an as real == a as real * n as real; }
    ProductAssociates(a as real, n as real, Power10(j), an as real, Power10(i), z);
    ProductCancels(an, b, Power10(j), z);
    assert b == 10 * (a * k) by { assert a * (10 * k) == 10 * (a * k); }
  }

  lemma NonZeroNonZero(n: ConnectorNumber, x: real)
    requires Represents(n, x) && !n.zero
    ensures x != 0.0 && (x < 0.0 <==> n.negative)
  {
    PowerPositive(n.exponent);
    NaturalPositive(n.significand);
    ProductPositive(Natural(n.significand) as real, Power10(n.exponent), if n.negative then -x else x);
  }

  lemma EqualNonZero(m: ConnectorNumber, n: ConnectorNumber, x: real)
    requires Represents(m, x) && Represents(n, x) && !m.zero && !n.zero
    ensures m.negative == n.negative && m.significand == n.significand && m.exponent == n.exponent
  {
    NonZeroNonZero(m, x);
    NonZeroNonZero(n, x);
    var a, b, z := Natural(m.significand), Natural(n.significand), if m.negative then -x else x;
    if m.exponent > n.exponent {
      SmallerExponent(a, m.exponent, b, n.exponent, z);
    } else if n.exponent > m.exponent {
      SmallerExponent(b, n.exponent, a, m.exponent, z);
    }
    StrippedNotMultipleOfTen(m.significand);
    StrippedNotMultipleOfTen(n.significand);
    PowerPositive(m.exponent);
    ProductCancels(a, b, Power10(m.exponent), z);
    NaturalInjective(m.significand, n.significand);
  }

  lemma SameNumberSameValue(m: ConnectorNumber, x: real, n: ConnectorNumber, y: real)
    requires Represents(m, x) && Represents(n, y) && SameNumber(m, n)
    ensures x == y
  {}

  lemma ZeroIsZero(n: ConnectorNumber, x: real)
    requires Represents(n, x)
    ensures n.zero <==> x == 0.0
  {
    if !n.zero { NonZeroNonZero(n, x); }
  }

  /** Two normal forms agree exactly when they stand for the same number. */
  lemma NormalFormUnique(m: ConnectorNumber, x: real, n: ConnectorNumber, y: real)
    requires Represents(m, x) && Represents(n, y)
    ensures x == y <==> SameNumber(m, n)
  {
    ZeroIsZero(m, x);
    ZeroIsZero(n, y);
    if SameNumber(m, n) {
      SameNumberSameValue(m, x, n, y);
    } else if x == y && !m.zero {
      EqualNonZero(m, n, x);
    }
  }

  // ---------- parsing ----------

  /** big.Int.SetString in base ten: an optional sign and at least one digit. */
  function ParseBigInt(s: string): Option<int> {
    var signed := s != "" && (s[0] == '-' || s[0] == '+');
    var digits := if signed then s[1..] else s;
    if digits == "" || !AllDigits(digits) then None
    else
      var n: int := Natural(digits);
      Some(if signed && s[0] == '-' then -n else n)
  }

  lemma MantissaCharacters(t: Token)
    requires WellFormed(t)
    ensures 'e' !in PrintMantissa(t) && 'E' !in PrintMantissa(t)
    ensures '.' !in t.whole && PrintMantissa(t)[0] != '-'
  {}

  lemma CutExponent(t: Token)
    requires WellFormed(t)
    ensures var lower := Cut(PrintUnsigned(t), 'e');
            var cut := if lower.2 then lower else Cut(PrintUnsigned(t), 'E');
            cut.0 == PrintMantissa(t)
            && cut.1 == PrintOptionalExponent(t)
  {
    MantissaCharacters(t);
    var u, m := PrintUnsigned(t), PrintMantissa(t);
    if t.exponent.None? {
      CutMissing(u, 'e');
      CutMissing(u, 'E');
    } else {
      var text := PrintExponent(t.exponent.value);
      assert 'e' !in text && 'E' !in text;
      if t.exponent.value.upperCase {
        assert 'e' !in u by { assert 'e' !in m; }
        CutMissing(u, 'e');
        CutAt(m, 'E', text);
      } else {
        CutAt(m, 'e', text);
      }
    }
  }

  lemma CutFraction(t: Token)
    requires WellFormed(t)
    ensures Cut(PrintMantissa(t), '.') == (t.whole, FractionDigits(t), t.fraction.Some?)
  {
    MantissaCharacters(t);
    if t.fraction.Some? {
      assert PrintMantissa(t) == t.whole + ['.'] + t.fraction.value;
      CutAt(t.whole, '.', t.fraction.value);
    } else {
      assert PrintMantissa(t) == t.whole;
      CutMissing(t.whole, '.');
    }
  }

  function PrintOptionalExponent(t: Token): string {
    if t.exponent.Some? then PrintExponent(t.exponent.value) else ""
  }

  function ParseExponent(text: string): Option<int> {
    if text == "" then Some(0) else ParseBigInt(if text[0] == '+' then text[1..] else text)
  }

  lemma ParseExponentOfToken(t: Token)
    requires WellFormed(t)
    ensures ParseExponent(PrintOptionalExponent(t)) == Some(Scale(t))
  {
    if t.exponent.Some? {
      var e := t.exponent.value;
      var text := PrintExponent(e);
      if e.sign == Unsigned {
        assert text == e.digits;
      } else {
        assert text[1..] == e.digits;
      }
    }
  }

  /** The digits of the mantissa, read without the point, scale to its value. */
  lemma MantissaIsScaledNatural(t: Token)
    requires WellFormed(t)
    ensures AllDigits(t.whole + FractionDigits(t))
    ensures Product(Natural(t.whole + FractionDigits(t)) as real, Power10(-|FractionDigits(t)|), MantissaValue(t))
  {
    var f := FractionDigits(t);
    var w, n, d := Natural(t.whole) as real, Natural(f) as real, Natural(t.whole + f) as real;
    var p, q := Power10(|f|), Power10(-|f|);
    NaturalConcat(t.whole, f);
    PowerAdd(|f|, -|f|);
    assert Power10(0) == 1.0;
    ProductOne(w, 1.0);
    ProductAssociates(w, p, q, d - n, 1.0, w);
    FractionIsScaledNatural(f);
    ProductSplits(d - n, n, q, w, FractionValue(f));
  }

  lemma MagnitudeProduct(t: Token)
    requires WellFormed(t)
    ensures Product(MantissaValue(t), Power10(Scale(t)), Magnitude(t))
  {}

  lemma Rescale(x: real, i: int, j: int, y: real, z: real)
    requires Product(x, Power10(i), y) && Product(y, Power10(j), z)
    ensures Product(x, Power10(i + j), z)
  {
    PowerAdd(i, j);
    ProductAssociates(x, Power10(i), Power10(j), y, Power10(i + j), z);
  }

  lemma RescaleTwice(x: real, i: int, j: int, k: int, y: real, z: real, w: real)
    requires Product(x, Power10(i), y) && Product(y, Power10(j), z) && Product(z, Power10(k), w)
    ensures Product(x, Power10(k + j + i), w)
  {
    Rescale(x, i, j, y, z);
    Rescale(x, i + j, k, z, w);
  }

  /** Stripping zeros on the left keeps the value of the digits. */
  lemma StrippedMantissa(t: Token, left: string)
    requires WellFormed(t) && left == TrimLeft(IsZero, t.whole + FractionDigits(t))
    ensures AllDigits(left) && Product(Natural(left) as real, Power10(-|FractionDigits(t)|), MantissaValue(t))
  {
    MantissaIsScaledNatural(t);
    TrimLeftZeros(t.whole + FractionDigits(t));
  }

  /** Stripping zeros on the right moves them into the exponent. */
  lemma StrippedMagnitude(left: string, right: string, f: int, scale: int, mantissa: real, magnitude: real)
    requires AllDigits(left) && right == TrimRight(IsZero, left)
    requires Product(Natural(left) as real, Power10(-f), mantissa) && Product(mantissa, Power10(scale), magnitude)
    ensures AllDigits(right) && Product(Natural(right) as real, Power10(scale - f + (|left| - |right|)), magnitude)
  {
    TrimRightZeros(left);
    RescaleTwice(Natural(right) as real, |left| - |right|, -f, scale, Natural(left) as real, mantissa, magnitude);
  }

  lemma StrippedDigits(digits: string, left: string, right: string)
    requires AllDigits(digits) && left == TrimLeft(IsZero, digits) && right == TrimRight(IsZero, left)
    ensures if left == "" then right == "" else Stripped(right)
  {
    TrimLeftZeros(digits);
    TrimRightZeros(left);
    if left != "" {
      NaturalPositive(left);
      ProductNonZero(Natural(right) as real, Power10(|left| - |right|), Natural(left) as real);
      assert right[0] == left[0];
    }
  }

  /** Stripping the zeros at both ends of the digits yields the normal form of the token's number. */
  lemma NormalFormOf(t: Token, left: string, right: string, exponent: int)
    requires WellFormed(t)
    requires left == TrimLeft(IsZero, t.whole + FractionDigits(t)) && right == TrimRight(IsZero, left)
    requires exponent == Scale(t) - |FractionDigits(t)| + (|left| - |right|)
    ensures left == "" ==> Denote(t) == 0.0
    ensures left != "" ==> Represents(ConnectorNumber(t.negative, false, right, exponent), Denote(t))
  {
    StrippedMantissa(t, left);
    MagnitudeProduct(t);
    StrippedMagnitude(left, right, |FractionDigits(t)|, Scale(t), MantissaValue(t), Magnitude(t));
    MantissaIsScaledNatural(t);
    StrippedDigits(t.whole + FractionDigits(t), left, right);
    if left == "" {
      ProductOfZero(Natural(right) as real, Power10(exponent), Magnitude(t));
    }
  }

  /** The pieces parseConnectorNumber cuts a number into: sign, digits, digits after the point, exponent. */
  datatype Pieces = Pieces(negative: bool, digits: string, fractionDigits: nat, exponentText: string)

  function CutNumber(raw: string): Pieces
    requires raw != ""
  {
    var negative := raw[0] == '-';
    var unsigned := if negative then raw[1..] else raw;
    var lower := Cut(unsigned, 'e');
    var cut := if lower.2 then lower else Cut(unsigned, 'E');
    var point := Cut(cut.0, '.');
    if point.2 then Pieces(negative, point.0 + point.1, |point.1|, cut.1) else Pieces(negative, cut.0, 0, cut.1)
  }

  function NormalizePieces(pieces: Pieces): Result<ConnectorNumber, string> {
    var left := TrimLeft(IsZero, pieces.digits);
    if left == "" then Success(ConnectorNumber(false, true, "", 0)) else
    var right := TrimRight(IsZero, left);
    var parsed := ParseExponent(pieces.exponentText);
    if parsed.None? then Failure("must be valid JSON")
    else Success(ConnectorNumber(pieces.negative, false, right,
                                 parsed.value - pieces.fractionDigits + (|left| - |right|)))
  }

  /** parseConnectorNumber */
  function ParseNumber(value: string): Result<ConnectorNumber, string> {
    var raw := Trim(IsSpace, value);
    if raw == "" then Failure("must be valid JSON") else NormalizePieces(CutNumber(raw))
  }

  lemma CutNumberOfToken(t: Token)
    requires WellFormed(t)
    ensures Print(t) != ""
    ensures CutNumber(Print(t)) == PiecesOf(t)
  {
    MantissaCharacters(t);
    assert PrintUnsigned(t)[0] == PrintMantissa(t)[0];
    if t.negative { assert Print(t)[1..] == PrintUnsigned(t); }
    CutExponent(t);
    CutFraction(t);
  }

  function PiecesOf(t: Token): Pieces {
    Pieces(t.negative, t.whole + FractionDigits(t), |FractionDigits(t)|, PrintOptionalExponent(t))
  }

  lemma NormalizeToken(t: Token)
    requires WellFormed(t)
    ensures NormalizePieces(PiecesOf(t)).Success? && Represents(NormalizePieces(PiecesOf(t)).value, Denote(t))
  {
    var left := TrimLeft(IsZero, t.whole + FractionDigits(t));
    var right := TrimRight(IsZero, left);
    ParseExponentOfToken(t);
    NormalFormOf(t, left, right, Scale(t) - |FractionDigits(t)| + (|left| - |right|));
  }

  /** Every spelling of a token parses to the normal form of the number it denotes. */
  lemma ParseNumberCorrect(value: string, t: Token)
    requires Spells(value, t)
    ensures ParseNumber(value).Success? && Represents(ParseNumber(value).value, Denote(t))
  {
    CutNumberOfToken(t);
    NormalizeToken(t);
  }

  /** equalConnectorNumbers: two number tokens compare equal exactly when they denote the same rational
      number, whatever their digit counts and exponents. */
  method EqualConnectorNumbers(left: string, right: string) returns (r: Result<bool, string>)
    ensures forall s, t | Spells(left, s) && Spells(right, t) :: r == Success(Denote(s) == Denote(t))
  {
    var leftNumber := ParseNumber(left);
    var rightNumber := ParseNumber(right);
    forall s, t | Spells(left, s) && Spells(right, t)
      ensures leftNumber.Success? && rightNumber.Success?
      ensures SameNumber(leftNumber.value, rightNumber.value) == (Denote(s) == Denote(t))
    {
      ParseNumberCorrect(left, s);
      ParseNumberCorrect(right, t);
      NormalFormUnique(leftNumber.value, Denote(s), rightNumber.value, Denote(t));
    }
    if leftNumber.Failure? {
      return Failure(leftNumber.error);
    }
    if rightNumber.Failure? {
      return Failure(rightNumber.error);
    }
    var l, n := leftNumber.value, rightNumber.value;
    if l.zero || n.zero {
      return Success(l.zero == n.zero);
    }
    return Success(l.negative == n.negative && l.significand == n.significand && l.exponent == n.exponent);
  }
}
