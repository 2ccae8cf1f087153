/** Integers and decimals: their one canonical spelling, and the strict reader of JSON number tokens. */
module JsonNumbers {
  import opened Utf8

  /** A decimal is (-1)^negative * coefficient * 10^exponent, or a NaN or infinity. */
  datatype Decimal = Finite(negative: bool, coefficient: nat, exponent: int) | NonFinite

  datatype Number = Whole(n: int) | Fractional(d: Decimal)

  const MINUS: CodePoint := '-' as int
  const DOT: CodePoint := '.' as int
  const ZERO: CodePoint := '0' as int

  predicate IsDigit(c: CodePoint) {
    '0' as int <= c <= '9' as int
  }

  predicate AllDigits(s: Text) {
    forall i | 0 <= i < |s| :: IsDigit(s[i])
  }

  function Digit(d: nat): (c: CodePoint)
    requires d < 10
    ensures IsDigit(c)
  {
    ZERO + d
  }

  function Digits(n: nat): (s: Text)
    ensures |s| >= 1 && AllDigits(s)
    ensures s[0] == ZERO ==> s == [ZERO]
    ensures n > 0 ==> s[0] != ZERO
  {
    if n < 10 then [Digit(n)] else Digits(n / 10) + [Digit(n % 10)]
  }

  function DigitsValue(s: Text): nat
    requires AllDigits(s)
  {
    if s == [] then 0 else DigitsValue(s[..|s| - 1]) * 10 + (s[|s| - 1] - ZERO)
  }

  lemma DigitsValueAppend(s: Text, d: nat)
    requires AllDigits(s) && d < 10
    ensures AllDigits(s + [Digit(d)]) && DigitsValue(s + [Digit(d)]) == DigitsValue(s) * 10 + d
  {
    assert (s + [Digit(d)])[..|s|] == s;
  }

  lemma {:induction false} DigitsValueInvertsDigits(n: nat)
    ensures DigitsValue(Digits(n)) == n
  {
    if n >= 10 {
      DigitsValueInvertsDigits(n / 10);
      DigitsValueAppend(Digits(n / 10), n % 10);
    } else {
      DigitsValueAppend([], n);
      assert [] + [Digit(n)] == [Digit(n)];
    }
  }

  function Pow10(k: nat): (p: nat)
    ensures p >= 1
  {
    if k == 0 then 1 else 10 * Pow10(k - 1)
  }

  function Zeros(k: nat): (s: Text)
    ensures AllDigits(s)
  {
    seq(k, _ => ZERO)
  }

  /** The digits of `n` left of its last `places` digits, as a number. */
  function Shift(n: nat, places: nat): nat {
    if places == 0 then n else Shift(n / 10, places - 1)
  }

  /** The last `places` digits of `n`, zero-filled. */
  function Pad(n: nat, places: nat): (s: Text)
    ensures |s| == places && AllDigits(s)
  {
    if places == 0 then [] else Pad(n / 10, places - 1) + [Digit(n % 10)]
  }

  lemma {:induction false} SplitDigitsValue(n: nat, places: nat)
    ensures DigitsValue(Digits(Shift(n, places)) + Pad(n, places)) == n
  {
    if places == 0 {
      assert Digits(n) + [] == Digits(n);
      DigitsValueInvertsDigits(n);
    } else {
      SplitDigitsValue(n / 10, places - 1);
      var front := Digits(Shift(n / 10, places - 1)) + Pad(n / 10, places - 1);
      assert Digits(Shift(n, places)) + Pad(n, places) == front + [Digit(n % 10)];
      DigitsValueAppend(front, n % 10);
    }
  }

  // ---- Printing ----------------------------------------------------------

  function Sign(negative: bool): Text {
    if negative then [MINUS] else []
  }

  function ShowInt(n: int): Text {
    if n < 0 then [MINUS] + Digits(-n) else Digits(n)
  }

  function FormatFraction(negative: bool, coefficient: nat, places: nat): Text {
    Sign(negative) + Digits(Shift(coefficient, places)) + [DOT] + Pad(coefficient, places)
  }

  /** Fixed-point spelling of a finite decimal: no exponent, exactly -exponent fraction digits. */
  function FormatFixed(negative: bool, coefficient: nat, exponent: int): Text {
    if exponent < 0 then FormatFraction(negative, coefficient, -exponent)
    else Sign(negative) + Digits(coefficient) + Zeros(exponent)
  }

  function StripRight(s: Text, c: CodePoint): Text {
    if s != [] && s[|s| - 1] == c then StripRight(s[..|s| - 1], c) else s
  }

  function DecimalToken(d: Decimal): Option<Text> {
    match d
    case NonFinite => None
    case Finite(negative, coefficient, exponent) =>
      if coefficient == 0 then Some([ZERO])
      else
        var token := FormatFixed(negative, coefficient, exponent);
        Some(if DOT in token then StripRight(StripRight(token, ZERO), DOT) else token)
  }

  function NumberToken(x: Number): Option<Text> {
    match x
    case Whole(n) => Some(ShowInt(n))
    case Fractional(d) => DecimalToken(d)
  }

  // ---- Normal form -------------------------------------------------------

  function Signed(negative: bool, n: nat): int {
    if negative then -(n as int) else n
  }

  /** Drop trailing zero places; a number with none left is whole. */
  function StripPlaces(negative: bool, coefficient: nat, places: nat): Number {
    if places == 0 then Whole(Signed(negative, coefficient))
    else if coefficient % 10 == 0 then StripPlaces(negative, coefficient / 10, places - 1)
    else Fractional(Finite(negative, coefficient, -(places as int)))
  }

  function NormalizeNumber(x: Number): Option<Number> {
    match x
    case Whole(_) => Some(x)
    case Fractional(NonFinite) => None
    case Fractional(Finite(negative, coefficient, exponent)) =>
      Some(if exponent >= 0 then Whole(Signed(negative, coefficient * Pow10(exponent)))
           else StripPlaces(negative, coefficient, -exponent))
  }

  predicate NormalNumber(x: Number) {
    match x
    case Whole(_) => true
    case Fractional(d) => d.Finite? && d.exponent < 0 && d.coefficient % 10 != 0
  }

  function ShowNumber(x: Number): Text
    requires NormalNumber(x)
  {
    match x
    case Whole(n) => ShowInt(n)
    case Fractional(d) => FormatFixed(d.negative, d.coefficient, d.exponent)
  }

  lemma {:induction false} StripPlacesNormal(negative: bool, coefficient: nat, places: nat)
    ensures NormalNumber(StripPlaces(negative, coefficient, places))
  {
    if places > 0 && coefficient % 10 == 0 {
      StripPlacesNormal(negative, coefficient / 10, places - 1);
    }
  }

  /** Normalising reaches normal numbers and leaves them alone. */
  lemma NormalizeNumberNormal(x: Number)
    ensures NormalizeNumber(x).Some? ==> NormalNumber(NormalizeNumber(x).value)
    ensures NormalNumber(x) ==> NormalizeNumber(x) == Some(x)
  {
    if x.Fractional? && x.d.Finite? && x.d.exponent < 0 {
      StripPlacesNormal(x.d.negative, x.d.coefficient, -x.d.exponent);
    }
  }

  lemma DigitsTimesTen(m: nat)
    requires m > 0
    ensures Digits(m * 10) == Digits(m) + [ZERO]
  {
  }

  lemma MulAssociates(a: int, b: int, c: int)
    ensures a * (b * c) == (a * b) * c
  {
  }

  lemma TimesPow10(n: nat, k: nat)
    requires n > 0
    ensures n * Pow10(k) > 0
    ensures k > 0 ==> n * Pow10(k) == n * Pow10(k - 1) * 10
  {
    if k > 0 {
      MulAssociates(n, Pow10(k - 1), 10);
    }
  }

  lemma {:induction false} DigitsTimesPow10(n: nat, k: nat)
    requires n > 0
    ensures Digits(n * Pow10(k)) == Digits(n) + Zeros(k)
  {
    if k == 0 {
      assert n * Pow10(0) == n;
      assert Digits(n) + Zeros(0) == Digits(n);
    } else {
      DigitsTimesPow10(n, k - 1);
      TimesPow10(n, k - 1);
      TimesPow10(n, k);
      DigitsTimesTen(n * Pow10(k - 1));
      assert Zeros(k) == Zeros(k - 1) + [ZERO];
    }
  }

  function Stripped(token: Text): Text {
    StripRight(StripRight(token, ZERO), DOT)
  }

  lemma StripRightStops(s: Text, c: CodePoint)
    requires s != [] && s[|s| - 1] != c
    ensures StripRight(s, c) == s
  {
  }

  lemma LastPlace(negative: bool, coefficient: nat, places: nat)
    requires places > 0
    ensures FormatFraction(negative, coefficient, places)
         == (if places == 1 then Sign(negative) + Digits(coefficient / 10) + [DOT]
             else FormatFraction(negative, coefficient / 10, places - 1)) + [Digit(coefficient % 10)]
  {
    if places == 1 {
      assert Shift(coefficient, 1) == Shift(coefficient / 10, 0) == coefficient / 10;
      assert Pad(coefficient, 1) == Pad(coefficient / 10, 0) + [Digit(coefficient % 10)];
    }
  }

  lemma StripLast(s: Text, c: CodePoint)
    ensures StripRight(s + [c], c) == StripRight(s, c)
  {
    assert (s + [c])[..|s|] == s;
  }

  lemma StrippedKeepsDigit(s: Text, c: CodePoint)
    requires c != ZERO && c != DOT
    ensures Stripped(s + [c]) == s + [c]
  {
    StripRightStops(s + [c], ZERO);
    StripRightStops(s + [c], DOT);
  }

  lemma StrippedDropsZero(s: Text)
    ensures Stripped(s + [ZERO]) == Stripped(s)
  {
    StripLast(s, ZERO);
  }

  lemma StrippedDropsPoint(whole: Text)
    requires whole != [] && IsDigit(whole[|whole| - 1])
    ensures Stripped(whole + [DOT]) == whole
  {
    StripRightStops(whole + [DOT], ZERO);
    StripLast(whole, DOT);
    StripRightStops(whole, DOT);
  }

  lemma NonzeroLastPlace(negative: bool, coefficient: nat, places: nat)
    requires places > 0 && coefficient % 10 != 0
    ensures Stripped(FormatFraction(negative, coefficient, places)) == FormatFraction(negative, coefficient, places)
    ensures StripPlaces(negative, coefficient, places) == Fractional(Finite(negative, coefficient, -(places as int)))
  {
    var token := FormatFraction(negative, coefficient, places);
    LastPlace(negative, coefficient, places);
    var front := token[..|token| - 1];
    assert token == front + [Digit(coefficient % 10)];
    StrippedKeepsDigit(front, Digit(coefficient % 10));
  }

  lemma ShowSigned(negative: bool, n: nat)
    requires n > 0
    ensures ShowInt(Signed(negative, n)) == Sign(negative) + Digits(n)
  {
    assert Sign(false) + Digits(n) == Digits(n);
  }

  lemma OnlyZeroPlace(negative: bool, coefficient: nat)
    requires coefficient > 0 && coefficient % 10 == 0
    ensures Stripped(FormatFraction(negative, coefficient, 1)) == ShowInt(Signed(negative, coefficient / 10))
  {
    var whole := Sign(negative) + Digits(coefficient / 10);
    LastPlace(negative, coefficient, 1);
    StrippedDropsZero(whole + [DOT]);
    StrippedDropsPoint(whole);
    ShowSigned(negative, coefficient / 10);
  }

  lemma OnlyZeroNumber(negative: bool, coefficient: nat)
    requires coefficient % 10 == 0
    ensures StripPlaces(negative, coefficient, 1) == Whole(Signed(negative, coefficient / 10))
  {
    assert StripPlaces(negative, coefficient / 10, 0) == Whole(Signed(negative, coefficient / 10));
  }

  lemma ZeroLastPlace(negative: bool, coefficient: nat, places: nat)
    requires places > 1 && coefficient % 10 == 0
    ensures Stripped(FormatFraction(negative, coefficient, places))
         == Stripped(FormatFraction(negative, coefficient / 10, places - 1))
  {
    LastPlace(negative, coefficient, places);
    StrippedDropsZero(FormatFraction(negative, coefficient / 10, places - 1));
  }

  /** Stripping the printed zeros is printing the stripped number. */
  lemma {:induction false} StrippedToken(negative: bool, coefficient: nat, places: nat)
    requires coefficient > 0 && places > 0
    ensures NormalNumber(StripPlaces(negative, coefficient, places))
    ensures Stripped(FormatFraction(negative, coefficient, places))
         == ShowNumber(StripPlaces(negative, coefficient, places))
  {
    StripPlacesNormal(negative, coefficient, places);
    if coefficient % 10 != 0 {
      NonzeroLastPlace(negative, coefficient, places);
    } else if places == 1 {
      OnlyZeroPlace(negative, coefficient);
      OnlyZeroNumber(negative, coefficient);
    } else {
      ZeroLastPlace(negative, coefficient, places);
      StrippedToken(negative, coefficient / 10, places - 1);
    }
  }

  lemma NoDot(s: Text, t: Text)
    requires AllDigits(t) && DOT !in s
    ensures DOT !in s + t
  {
    forall i | 0 <= i < |s + t| ensures (s + t)[i] != DOT {
      assert i >= |s| ==> (s + t)[i] == t[i - |s|];
    }
  }

  lemma WholeDecimalToken(negative: bool, coefficient: nat, exponent: nat)
    requires coefficient > 0
    ensures DecimalToken(Finite(negative, coefficient, exponent))
         == Some(ShowInt(Signed(negative, coefficient * Pow10(exponent))))
  {
    var magnitude := coefficient * Pow10(exponent);
    DigitsTimesPow10(coefficient, exponent);
    TimesPow10(coefficient, exponent);
    assert Sign(negative) + Digits(coefficient) + Zeros(exponent) == Sign(negative) + Digits(magnitude);
    NoDot(Sign(negative), Digits(magnitude));
    assert Signed(negative, magnitude) < 0 <==> negative;
    assert Sign(false) + Digits(magnitude) == Digits(magnitude);
  }

  lemma HasPoint(negative: bool, coefficient: nat, places: nat)
    ensures DOT in FormatFraction(negative, coefficient, places)
  {
    assert FormatFraction(negative, coefficient, places)[|Sign(negative) + Digits(Shift(coefficient, places))|] == DOT;
  }

  /** The printed token of any number is the spelling of its normal form. */
  lemma NumberTokenShowsNormalForm(x: Number)
    ensures NumberToken(x).Some? == NormalizeNumber(x).Some?
    ensures NumberToken(x).Some? ==>
              NormalNumber(NormalizeNumber(x).value) && NumberToken(x) == Some(ShowNumber(NormalizeNumber(x).value))
  {
    NormalizeNumberNormal(x);
    if x.Fractional? && x.d.Finite? {
      var Finite(negative, coefficient, exponent) := x.d;
      if coefficient == 0 {
        ZeroStripsToZero(negative, if exponent < 0 then -exponent else 0);
      } else if exponent < 0 {
        StrippedToken(negative, coefficient, -exponent);
        HasPoint(negative, coefficient, -exponent);
      } else {
        WholeDecimalToken(negative, coefficient, exponent);
      }
    }
  }

  lemma {:induction false} ZeroStripsToZero(negative: bool, places: nat)
    ensures StripPlaces(negative, 0, places) == Whole(0)
  {
    if places > 0 {
      ZeroStripsToZero(negative, places - 1);
    }
  }

  // ---- Normal form and numeric value -------------------------------------

  predicate HasPlaces(x: Number, places: nat) {
    x.Whole? || (x.d.Finite? && -(places as int) <= x.d.exponent)
  }

  /** The value of `x` in units of 10^-places, exact once `places` covers its fraction. */
  function Units(x: Number, places: nat): int
    requires HasPlaces(x, places)
  {
    match x
    case Whole(n) => n * Pow10(places)
    case Fractional(Finite(negative, coefficient, exponent)) =>
      Signed(negative, coefficient) * Pow10(exponent + places)
  }

  lemma {:induction false} Pow10Sum(j: nat, k: nat)
    ensures Pow10(j + k) == Pow10(j) * Pow10(k)
  {
    if j > 0 {
      Pow10Sum(j - 1, k);
      assert Pow10(j + k) == 10 * Pow10(j - 1 + k);
      assert 10 * (Pow10(j - 1) * Pow10(k)) == (10 * Pow10(j - 1)) * Pow10(k);
    }
  }

  lemma {:induction false} StripPlacesUnits(negative: bool, coefficient: nat, places: nat, at: nat)
    requires places <= at
    ensures HasPlaces(StripPlaces(negative, coefficient, places), at)
    ensures Units(StripPlaces(negative, coefficient, places), at) == Signed(negative, coefficient) * Pow10(at - places)
  {
    if places > 0 && coefficient % 10 == 0 {
      StripPlacesUnits(negative, coefficient / 10, places - 1, at);
      assert Pow10(at - places + 1) == 10 * Pow10(at - places);
      MulAssociates(Signed(negative, coefficient / 10), 10, Pow10(at - places));
    }
  }

  lemma SignedTimes(negative: bool, n: nat, p: nat)
    ensures Signed(negative, n * p) == Signed(negative, n) * p
  {
  }

  lemma NormalizePreservesUnits(x: Number, places: nat)
    requires HasPlaces(x, places)
    ensures NormalizeNumber(x).Some? && HasPlaces(NormalizeNumber(x).value, places)
    ensures Units(NormalizeNumber(x).value, places) == Units(x, places)
  {
    if x.Fractional? {
      var Finite(negative, coefficient, exponent) := x.d;
      if exponent < 0 {
        StripPlacesUnits(negative, coefficient, -exponent, places);
      } else {
        Pow10Sum(exponent, places);
        SignedTimes(negative, coefficient, Pow10(exponent));
        MulAssociates(Signed(negative, coefficient), Pow10(exponent), Pow10(places));
      }
    }
  }

  lemma MultiplyInjective(a: int, b: int, p: nat)
    requires p > 0 && a * p == b * p
    ensures a == b
  {
    assert (a - b) * p == 0;
  }

  /** Coefficients that end in a nonzero digit and stand for the same units have the same exponent. */
  lemma SameExponent(m: int, j: nat, n: int, k: nat)
    requires m * Pow10(j) == n * Pow10(k) && n % 10 != 0
    ensures j <= k
  {
    if j > k {
      Pow10Sum(j - k, k);
      MulAssociates(m, Pow10(j - k), Pow10(k));
      MultiplyInjective(m * Pow10(j - k), n, Pow10(k));
      MulAssociates(m, Pow10(j - k - 1), 10);
    }
  }

  lemma NormalDeterminedByUnits(x: Number, y: Number, places: nat)
    requires NormalNumber(x) && NormalNumber(y) && HasPlaces(x, places) && HasPlaces(y, places)
    requires Units(x, places) == Units(y, places)
    ensures x == y
  {
    SamePlaces(x, y, places);
    MultiplyInjective(Parts(x, places).0, Parts(y, places).0, Pow10(Parts(x, places).1));
    SameParts(x, y, places);
  }

  lemma SamePlaces(x: Number, y: Number, places: nat)
    requires NormalNumber(x) && NormalNumber(y) && HasPlaces(x, places) && HasPlaces(y, places)
    requires Units(x, places) == Units(y, places)
    ensures Parts(x, places).1 == Parts(y, places).1
  {
    var (m, j) := Parts(x, places);
    var (n, k) := Parts(y, places);
    if x.Fractional? {
      SameExponent(n, k, m, j);
    }
    if y.Fractional? {
      SameExponent(m, j, n, k);
    }
  }

  lemma SameParts(x: Number, y: Number, places: nat)
    requires NormalNumber(x) && NormalNumber(y) && HasPlaces(x, places) && HasPlaces(y, places)
    requires Parts(x, places) == Parts(y, places)
    ensures x == y
  {
  }

  function Parts(x: Number, places: nat): (r: (int, nat))
    requires NormalNumber(x) && HasPlaces(x, places)
    ensures Units(x, places) == r.0 * Pow10(r.1)
    ensures r.1 == places <==> x.Whole?
  {
    match x
    case Whole(n) => (n, places)
    case Fractional(d) => (Signed(d.negative, d.coefficient), d.exponent + places)
  }

  /** Finite numbers share a normal form exactly when they are numerically equal. */
  lemma SameNormalFormIffEqualValue(x: Number, y: Number, places: nat)
    requires HasPlaces(x, places) && HasPlaces(y, places)
    ensures NormalizeNumber(x) == NormalizeNumber(y) <==> Units(x, places) == Units(y, places)
  {
    NormalizePreservesUnits(x, places);
    NormalizePreservesUnits(y, places);
    NormalizeNumberNormal(x);
    NormalizeNumberNormal(y);
    if Units(x, places) == Units(y, places) {
      NormalDeterminedByUnits(NormalizeNumber(x).value, NormalizeNumber(y).value, places);
    }
  }

  // ---- Reading -----------------------------------------------------------

  /** How many digits `s` starts with. */
  function DigitSpan(s: Text): (n: nat)
    ensures n <= |s| && AllDigits(s[..n]) && (n < |s| ==> !IsDigit(s[n]))
  {
    if s == [] || !IsDigit(s[0]) then 0
    else
      var n := DigitSpan(s[1..]);
      assert s[..n + 1] == [s[0]] + s[1..][..n];
      n + 1
  }

  lemma {:induction false} DigitSpanOf(digits: Text, rest: Text)
    requires AllDigits(digits) && (rest == [] || !IsDigit(rest[0]))
    ensures DigitSpan(digits + rest) == |digits|
    ensures (digits + rest)[..|digits|] == digits && (digits + rest)[|digits|..] == rest
  {
    if digits == [] {
      assert digits + rest == rest;
    } else {
      DigitSpanOf(digits[1..], rest);
      assert (digits + rest)[1..] == digits[1..] + rest;
    }
  }

  /** The integer part: a lone zero, or digits that do not start with zero. */
  function IntegerSpan(s: Text): (n: nat)
    ensures n <= |s| && AllDigits(s[..n])
  {
    if s != [] && s[0] == ZERO then 1 else DigitSpan(s)
  }

  /** A point and at least one digit, or nothing. */
  function FractionSpan(s: Text): (n: nat)
    ensures n <= |s| && (n > 0 ==> n >= 2 && AllDigits(s[1..n]))
  {
    if s != [] && s[0] == DOT && DigitSpan(s[1..]) > 0 then
      var n := DigitSpan(s[1..]);
      assert s[1..n + 1] == s[1..][..n];
      n + 1
    else 0
  }

  /** An exponent marker, an optional sign and at least one digit, or nothing. */
  function ExponentPart(s: Text): (r: (int, nat))
    ensures r.1 <= |s|
  {
    if s == [] || (s[0] != 'e' as int && s[0] != 'E' as int) then (0, 0)
    else
      var signed := |s| > 1 && (s[1] == MINUS || s[1] == '+' as int);
      var start := if signed then 2 else 1;
      var n := DigitSpan(s[start..]);
      if n == 0 then (0, 0)
      else (Signed(signed && s[1] == MINUS, DigitsValue(s[start..][..n])), start + n)
  }

  function ParseUnsigned(negative: bool, body: Text): (r: Option<(Number, Text)>)
    ensures r.Some? ==> |r.value.1| < |body|
  {
    var i := IntegerSpan(body);
    if i == 0 then None else Some(ParseAfterInteger(negative, body[..i], body[i..]))
  }

  function ParseAfterInteger(negative: bool, integer: Text, tail: Text): (r: (Number, Text))
    requires AllDigits(integer)
    ensures |r.1| <= |tail|
  {
    var f := FractionSpan(tail);
    var fraction := if f == 0 then [] else tail[1..f];
    var (exponent, e) := ExponentPart(tail[f..]);
    if f == 0 && e == 0 then (Whole(Signed(negative, DigitsValue(integer))), tail)
    else (Fractional(Finite(negative, DigitsValue(integer + fraction), exponent - |fraction|)), tail[f + e..])
  }

  /** The longest number token at the front of `s`; a token with fraction or exponent is a decimal. */
  function ParseNumber(s: Text): (r: Option<(Number, Text)>)
    ensures r.Some? ==> |r.value.1| < |s|
  {
    if s != [] && s[0] == MINUS then ParseUnsigned(true, s[1..]) else ParseUnsigned(false, s)
  }

  /** Text that cannot continue a number token. */
  predicate EndsNumber(rest: Text) {
    rest == [] || (!IsDigit(rest[0]) && rest[0] != DOT && rest[0] != 'e' as int && rest[0] != 'E' as int)
  }

  lemma ParseSigned(negative: bool, body: Text)
    requires body != [] && body[0] != MINUS
    ensures ParseNumber(Sign(negative) + body) == ParseUnsigned(negative, body)
  {
    assert negative ==> (Sign(negative) + body)[1..] == body;
    assert !negative ==> Sign(negative) + body == body;
  }

  lemma FractionSpanOf(fraction: Text, rest: Text)
    requires AllDigits(fraction) && fraction != [] && (rest == [] || !IsDigit(rest[0]))
    ensures var tail := [DOT] + fraction + rest;
            && FractionSpan(tail) == |fraction| + 1
            && tail[1..|fraction| + 1] == fraction && tail[|fraction| + 1..] == rest
  {
    var tail := [DOT] + fraction + rest;
    assert tail[1..] == fraction + rest;
    DigitSpanOf(fraction, rest);
  }
}
