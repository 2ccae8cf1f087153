/** The texts of RFC 8259 and the values they stand for, apart from any parser; and the strict parser read against them:
    it accepts a text with a value if and only if the text spells that value. */
module JsonGrammar {
  import opened Sequences
  import opened Utf8
  import opened JsonNumbers
  import opened JsonStrings
  import opened CanonicalJson

  // ---- White space (section 2) -------------------------------------------

  /** Any run of tabs, line feeds, carriage returns and spaces. */
  predicate Gap(s: Text) {
    forall i | 0 <= i < |s| :: s[i] == 9 || s[i] == 10 || s[i] == 13 || s[i] == 32
  }

  // ---- Numbers (section 6) -----------------------------------------------

  predicate Decimals(s: Text) {
    forall i | 0 <= i < |s| :: 48 <= s[i] <= 57
  }

  /** What the digits are worth, each by its place. */
  function Worth(s: Text): nat
    requires Decimals(s)
  {
    if s == [] then 0 else (s[0] - 48) * Pow10(|s| - 1) + Worth(s[1..])
  }

  datatype Power = NoPower | Power(marker: CodePoint, sign: Text, digits: Text)

  /** A minus sign or none, the whole part, the digits after the point if there are any, and a power of ten or none. */
  datatype Numeral = Numeral(negative: bool, whole: Text, fraction: Text, power: Power)

  predicate PowerOk(p: Power) {
    p.Power? ==>
      && (p.marker == 101 || p.marker == 69) && (p.sign == [] || p.sign == [43] || p.sign == [45])
      && p.digits != [] && Decimals(p.digits)
  }

  predicate NumeralOk(n: Numeral) {
    && n.whole != [] && Decimals(n.whole) && (n.whole[0] == 48 ==> |n.whole| == 1)
    && Decimals(n.fraction) && PowerOk(n.power)
  }

  function SpellPower(p: Power, rest: Text): Text {
    match p
    case NoPower => rest
    case Power(marker, sign, digits) => [marker] + (sign + (digits + rest))
  }

  function SpellFraction(fraction: Text, rest: Text): Text {
    if fraction == [] then rest else [46] + (fraction + rest)
  }

  function SpellNumeral(n: Numeral, rest: Text): Text {
    (if n.negative then [45] else []) + (n.whole + SpellFraction(n.fraction, SpellPower(n.power, rest)))
  }

  function PowerOf(p: Power): int
    requires PowerOk(p)
  {
    match p
    case NoPower => 0
    case Power(_, sign, digits) => if sign == [45] then -(Worth(digits) as int) else Worth(digits)
  }

  lemma DecimalsConcat(a: Text, b: Text)
    requires Decimals(a) && Decimals(b)
    ensures Decimals(a + b)
  {
  }

  /** Without point and power an integer; otherwise a decimal with every digit written. */
  function NumeralValue(n: Numeral): Number
    requires NumeralOk(n)
  {
    DecimalsConcat(n.whole, n.fraction);
    if n.fraction == [] && n.power.NoPower? then Whole(if n.negative then -(Worth(n.whole) as int) else Worth(n.whole))
    else Fractional(Finite(n.negative, Worth(n.whole + n.fraction), PowerOf(n.power) - |n.fraction|))
  }

  // ---- Strings (section 7) -----------------------------------------------

  /** One character of a string: itself, a backslash and a letter, or a backslash, a u and four hexadecimal digits. */
  datatype Unit = Plain(c: CodePoint) | Short(letter: CodePoint) | Hex(digits: Text)

  /** Quotation mark, reverse solidus, solidus, backspace, form feed, line feed, carriage return, tab. */
  const SHORTS: map<CodePoint, CodePoint> :=
    map[0x22 := 0x22, 0x5C := 0x5C, 0x2F := 0x2F, 0x62 := 0x08, 0x66 := 0x0C, 0x6E := 0x0A, 0x72 := 0x0D, 0x74 := 0x09]

  predicate HexOk(c: CodePoint) {
    48 <= c <= 57 || 65 <= c <= 70 || 97 <= c <= 102
  }

  predicate UnitOk(u: Unit) {
    match u
    case Plain(c) => c >= 0x20 && c != 0x22 && c != 0x5C
    case Short(letter) => letter in SHORTS
    case Hex(digits) => |digits| == 4 && forall i | 0 <= i < 4 :: HexOk(digits[i])
  }

  function HexWorth(c: CodePoint): nat
    requires HexOk(c)
  {
    if c <= 57 then c - 48 else if c <= 70 then c - 55 else c - 87
  }

  /** What the digits are worth, the last one least. */
  function HexNumber(digits: Text): (n: nat)
    requires |digits| <= 4 && forall i | 0 <= i < |digits| :: HexOk(digits[i])
    ensures n < (if digits == [] then 1 else if |digits| == 1 then 16 else if |digits| == 2 then 256
                 else if |digits| == 3 then 4096 else 65536)
  {
    if digits == [] then 0 else HexNumber(digits[..|digits| - 1]) * 16 + HexWorth(digits[|digits| - 1])
  }

  function UnitCode(u: Unit): CodePoint
    requires UnitOk(u)
  {
    match u
    case Plain(c) => c
    case Short(letter) => SHORTS[letter]
    case Hex(digits) => HexNumber(digits)
  }

  function SpellUnit(u: Unit, rest: Text): Text {
    match u
    case Plain(c) => [c] + rest
    case Short(letter) => [0x5C] + ([letter] + rest)
    case Hex(digits) => [0x5C] + ([0x75] + (digits + rest))
  }

  function SpellUnits(units: seq<Unit>, rest: Text): Text {
    if units == [] then rest else SpellUnit(units[0], SpellUnits(units[1..], rest))
  }

  function SpellString(units: seq<Unit>, rest: Text): Text {
    [0x22] + SpellUnits(units, [0x22] + rest)
  }

  predicate UnitsOk(units: seq<Unit>) {
    forall i | 0 <= i < |units| :: UnitOk(units[i])
  }

  /** Two hexadecimal escapes that are the halves of a surrogate pair. */
  predicate PairUp(a: Unit, b: Unit)
    requires UnitOk(a) && UnitOk(b)
  {
    a.Hex? && b.Hex? && 0xD800 <= UnitCode(a) <= 0xDBFF && 0xDC00 <= UnitCode(b) <= 0xDFFF
  }

  /** The code point of a surrogate pair. */
  function PairCode(a: Unit, b: Unit): CodePoint
    requires UnitOk(a) && UnitOk(b) && PairUp(a, b)
  {
    0x1_0000 + (UnitCode(a) - 0xD800) * 0x400 + (UnitCode(b) - 0xDC00)
  }

  /** The text of a string: pairs of surrogates that are both escaped become one code point. */
  function UnitsText(units: seq<Unit>): Text
    requires UnitsOk(units)
  {
    if units == [] then []
    else if |units| >= 2 && PairUp(units[0], units[1]) then
      [PairCode(units[0], units[1])] + UnitsText(units[2..])
    else [UnitCode(units[0])] + UnitsText(units[1..])
  }

  // ---- Values (sections 3 to 5) ------------------------------------------

  /** A text by its structure. The gap stands in empty arrays and objects. */
  datatype Doc =
    | NullDoc
    | BoolDoc(b: bool)
    | NumberDoc(n: Numeral)
    | StringDoc(units: seq<Unit>)
    | ArrayDoc(gap: Text, items: seq<Padded>)
    | ObjectDoc(gap: Text, members: seq<Member>)

  datatype Padded = Padded(before: Text, doc: Doc, after: Text)

  datatype Member = Member(before: Text, key: seq<Unit>, middle: Text, value: Padded)

  predicate DocOk(d: Doc) {
    match d
    case NullDoc => true
    case BoolDoc(_) => true
    case NumberDoc(n) => NumeralOk(n)
    case StringDoc(units) => UnitsOk(units)
    case ArrayDoc(gap, items) => Gap(gap) && forall i | 0 <= i < |items| :: PaddedOk(items[i])
    case ObjectDoc(gap, members) => Gap(gap) && forall i | 0 <= i < |members| :: MemberOk(members[i])
  }

  predicate PaddedOk(p: Padded) {
    Gap(p.before) && DocOk(p.doc) && Gap(p.after)
  }

  predicate MemberOk(m: Member) {
    Gap(m.before) && UnitsOk(m.key) && Gap(m.middle) && PaddedOk(m.value)
  }

  /** The text of a document, and then `rest`. */
  function Spell(d: Doc, rest: Text): Text {
    match d
    case NullDoc => [110, 117, 108, 108] + rest
    case BoolDoc(b) => (if b then [116, 114, 117, 101] else [102, 97, 108, 115, 101]) + rest
    case NumberDoc(n) => SpellNumeral(n, rest)
    case StringDoc(units) => SpellString(units, rest)
    case ArrayDoc(gap, items) => [91] + if items == [] then gap + ([93] + rest) else SpellItems(items, [93] + rest)
    case ObjectDoc(gap, members) =>
      [123] + if members == [] then gap + ([125] + rest) else SpellMembers(members, [125] + rest)
  }

  function SpellPadded(p: Padded, rest: Text): Text {
    p.before + Spell(p.doc, p.after + rest)
  }

  function SpellItems(items: seq<Padded>, rest: Text): Text {
    if items == [] then rest
    else if |items| == 1 then SpellPadded(items[0], rest)
    else SpellPadded(items[0], [44] + SpellItems(items[1..], rest))
  }

  function SpellMember(m: Member, rest: Text): Text {
    m.before + SpellString(m.key, m.middle + ([58] + SpellPadded(m.value, rest)))
  }

  function SpellMembers(members: seq<Member>, rest: Text): Text {
    if members == [] then rest
    else if |members| == 1 then SpellMember(members[0], rest)
    else SpellMember(members[0], [44] + SpellMembers(members[1..], rest))
  }

  /** The document stands for the value. Objects keep their members in order, under NFC keys that all differ. */
  ghost predicate Means(nfc: Nfc, d: Doc, v: Value)
    requires DocOk(d)
  {
    match d
    case NullDoc => v == Null
    case BoolDoc(b) => v == Bool(b)
    case NumberDoc(n) => v == Num(NumeralValue(n))
    case StringDoc(units) => v == Str(UnitsText(units))
    case ArrayDoc(_, items) =>
      && v.Arr? && |v.items| == |items|
      && forall i | 0 <= i < |items| :: DocOk(items[i].doc) && Means(nfc, items[i].doc, v.items[i])
    case ObjectDoc(_, members) =>
      && v.Obj? && |v.fields| == |members|
      && (forall i | 0 <= i < |members| ::
            && UnitsOk(members[i].key) && v.fields[i].key == nfc(UnitsText(members[i].key))
            && DocOk(members[i].value.doc) && Means(nfc, members[i].value.doc, v.fields[i].value))
      && forall i, j | 0 <= i < j < |members| :: v.fields[i].key != v.fields[j].key
  }

  /** The text spells the value: it is that of a document which stands for it, with white space around. */
  ghost predicate Spells(nfc: Nfc, t: Text, v: Value) {
    exists p :: PaddedOk(p) && SpellPadded(p, []) == t && Means(nfc, p.doc, v)
  }

  // ---- Reading gaps ------------------------------------------------------

  lemma {:induction false} SkipGap(gap: Text, rest: Text)
    requires Gap(gap)
    ensures SkipSpace(gap + rest) == SkipSpace(rest)
  {
    if gap == [] {
      assert gap + rest == rest;
    } else {
      ConcatHead(gap, rest);
      SkipGap(gap[1..], rest);
    }
  }

  lemma {:induction false} GapSkipped(s: Text) returns (gap: Text)
    ensures Gap(gap) && s == gap + SkipSpace(s)
  {
    if s != [] && IsSpace(s[0]) {
      var more := GapSkipped(s[1..]);
      gap := [s[0]] + more;
      Associate([s[0]], more, SkipSpace(s));
      SplitAt(s, 1);
      assert s[..1] == [s[0]];
    } else {
      gap := [];
      assert gap + s == s;
    }
  }

  lemma GapEndsNumber(gap: Text, rest: Text)
    requires Gap(gap) && EndsNumber(rest)
    ensures EndsNumber(gap + rest)
  {
    if gap != [] {
      ConcatHead(gap, rest);
    } else {
      assert gap + rest == rest;
    }
  }

  // ---- Reading numbers ---------------------------------------------------

  lemma DecimalsAreDigits(s: Text)
    ensures Decimals(s) <==> AllDigits(s)
  {
  }

  lemma WorthAppend(s: Text, c: CodePoint)
    requires Decimals(s) && 48 <= c <= 57
    ensures Decimals(s + [c]) && Worth(s + [c]) == Worth(s) * 10 + (c - 48)
  {
    if s == [] {
      assert s + [c] == [c] && [c][1..] == [];
    } else {
      ConcatHead(s, [c]);
      WorthAppend(s[1..], c);
      PlaceShifts(s[0] - 48, |s| - 1);
    }
  }

  lemma PlaceShifts(d: nat, k: nat)
    ensures d * Pow10(k + 1) == d * Pow10(k) * 10
  {
    assert Pow10(k + 1) == 10 * Pow10(k);
    MulAssociates(d, Pow10(k), 10);
  }

  lemma {:induction false} WorthIsValue(s: Text)
    requires Decimals(s)
    ensures AllDigits(s) && Worth(s) == DigitsValue(s)
  {
    if s != [] {
      var front, last := s[..|s| - 1], s[|s| - 1];
      WorthIsValue(front);
      SplitLast(s);
      WorthAppend(front, last);
    }
  }

  predicate NoDigitNext(rest: Text) {
    rest == [] || !IsDigit(rest[0])
  }

  /** The digits of a power after its marker, and its sign if there is one. */
  lemma ReadPowerDigits(marker: CodePoint, sign: Text, digits: Text, rest: Text)
    requires PowerOk(Power(marker, sign, digits)) && EndsNumber(rest)
    ensures var s := SpellPower(Power(marker, sign, digits), rest);
            && AllDigits(digits)
            && s[|sign| + 1..] == digits + rest && DigitSpan(s[|sign| + 1..]) == |digits|
            && s[|sign| + 1..][..|digits|] == digits && s[|sign| + 1 + |digits|..] == rest
            && s[0] == marker && |s| > 1 && s[1] == if sign == [] then digits[0] else sign[0]
  {
    var s := SpellPower(Power(marker, sign, digits), rest);
    assert s[1..] == sign + (digits + rest);
    assert s[|sign| + 1..] == digits + rest;
    DecimalsAreDigits(digits);
    DigitSpanOf(digits, rest);
    DropTwice(s, |sign| + 1, |digits|);
  }

  lemma ReadPower(p: Power, rest: Text)
    requires PowerOk(p) && EndsNumber(rest)
    ensures NoDigitNext(SpellPower(p, rest)) && (SpellPower(p, rest) == [] || SpellPower(p, rest)[0] != DOT)
    ensures var (power, n) := ExponentPart(SpellPower(p, rest));
            power == PowerOf(p) && SpellPower(p, rest)[n..] == rest && (n == 0 <==> p.NoPower?)
  {
    if p.Power? {
      ReadPowerDigits(p.marker, p.sign, p.digits, rest);
      WorthIsValue(p.digits);
    }
  }

  lemma DropTwice(s: Text, i: nat, j: nat)
    requires i + j <= |s|
    ensures s[i..][j..] == s[i + j..]
  {
  }

  lemma ReadFraction(fraction: Text, rest: Text)
    requires Decimals(fraction) && NoDigitNext(rest) && (rest == [] || rest[0] != DOT)
    ensures NoDigitNext(SpellFraction(fraction, rest))
    ensures var s := SpellFraction(fraction, rest);
            var f := FractionSpan(s);
            && s[f..] == rest && (f == 0 <==> fraction == []) && (f > 0 ==> s[1..f] == fraction)
  {
    if fraction != [] {
      assert [46] + (fraction + rest) == [DOT] + fraction + rest;
      FractionSpanOf(fraction, rest);
    }
  }

  lemma ReadWhole(whole: Text, rest: Text)
    requires whole != [] && Decimals(whole) && (whole[0] == 48 ==> |whole| == 1) && NoDigitNext(rest)
    ensures IntegerSpan(whole + rest) == |whole|
    ensures (whole + rest)[..|whole|] == whole && (whole + rest)[|whole|..] == rest
  {
    DigitSpanOf(whole, rest);
  }

  /** What the parser makes of a whole part that nothing follows. */
  lemma AfterIntegerWhole(negative: bool, whole: Text, tail: Text)
    requires AllDigits(whole) && FractionSpan(tail) == 0 && ExponentPart(tail).1 == 0
    ensures ParseAfterInteger(negative, whole, tail) == (Whole(Signed(negative, DigitsValue(whole))), tail)
  {
    assert tail[0..] == tail;
  }

  /** What the parser makes of a whole part with a fraction, or a power, or both. */
  lemma AfterIntegerDecimal(negative: bool, whole: Text, tail: Text, fraction: Text, power: int, e: nat)
    requires AllDigits(whole) && AllDigits(whole + fraction)
    requires fraction == if FractionSpan(tail) == 0 then [] else tail[1..FractionSpan(tail)]
    requires ExponentPart(tail[FractionSpan(tail)..]) == (power, e) && (FractionSpan(tail) > 0 || e > 0)
    ensures ParseAfterInteger(negative, whole, tail).0
         == Fractional(Finite(negative, DigitsValue(whole + fraction), power - |fraction|))
  {
  }

  lemma AfterIntegerRest(negative: bool, whole: Text, tail: Text, e: nat)
    requires AllDigits(whole) && ExponentPart(tail[FractionSpan(tail)..]).1 == e
    ensures ParseAfterInteger(negative, whole, tail).1 == tail[FractionSpan(tail)..][e..]
  {
    DropTwice(tail, FractionSpan(tail), e);
  }

  lemma AfterIntegerIs(n: Numeral, tail: Text, e: nat)
    requires NumeralOk(n) && AllDigits(n.whole)
    requires n.fraction == if FractionSpan(tail) == 0 then [] else tail[1..FractionSpan(tail)]
    requires ExponentPart(tail[FractionSpan(tail)..]) == (PowerOf(n.power), e) && (e == 0 <==> n.power.NoPower?)
    ensures ParseAfterInteger(n.negative, n.whole, tail) == (NumeralValue(n), tail[FractionSpan(tail)..][e..])
  {
    NumeralWorth(n);
    if FractionSpan(tail) == 0 && e == 0 {
      assert tail[0..] == tail;
      AfterIntegerWhole(n.negative, n.whole, tail);
    } else {
      AfterIntegerDecimal(n.negative, n.whole, tail, n.fraction, PowerOf(n.power), e);
      AfterIntegerRest(n.negative, n.whole, tail, e);
    }
  }

  lemma ReadAfterWhole(n: Numeral, rest: Text)
    requires NumeralOk(n) && AllDigits(n.whole) && EndsNumber(rest)
    ensures ParseAfterInteger(n.negative, n.whole, SpellFraction(n.fraction, SpellPower(n.power, rest)))
         == (NumeralValue(n), rest)
    ensures NoDigitNext(SpellFraction(n.fraction, SpellPower(n.power, rest)))
  {
    var after := SpellPower(n.power, rest);
    ReadPower(n.power, rest);
    ReadFraction(n.fraction, after);
    AfterIntegerIs(n, SpellFraction(n.fraction, after), ExponentPart(after).1);
  }

  /** What a numeral is worth, as the parser computes it. */
  lemma NumeralWorth(n: Numeral)
    requires NumeralOk(n)
    ensures AllDigits(n.whole) && AllDigits(n.whole + n.fraction)
    ensures NumeralValue(n)
         == if n.fraction == [] && n.power.NoPower? then Whole(Signed(n.negative, DigitsValue(n.whole)))
            else Fractional(Finite(n.negative, DigitsValue(n.whole + n.fraction), PowerOf(n.power) - |n.fraction|))
  {
    DecimalsConcat(n.whole, n.fraction);
    WorthIsValue(n.whole);
    WorthIsValue(n.whole + n.fraction);
  }

  lemma ReadUnsigned(n: Numeral, rest: Text)
    requires NumeralOk(n) && EndsNumber(rest)
    ensures var body := n.whole + SpellFraction(n.fraction, SpellPower(n.power, rest));
            ParseUnsigned(n.negative, body) == Some((NumeralValue(n), rest)) && body[0] != MINUS
  {
    DecimalsAreDigits(n.whole);
    ReadAfterWhole(n, rest);
    ReadWhole(n.whole, SpellFraction(n.fraction, SpellPower(n.power, rest)));
  }

  /** A numeral is read as what it is worth, and no further. */
  lemma ReadNumeral(n: Numeral, rest: Text)
    requires NumeralOk(n) && EndsNumber(rest)
    ensures ParseNumber(SpellNumeral(n, rest)) == Some((NumeralValue(n), rest))
    ensures SpellNumeral(n, rest) != []
    ensures IsDigit(SpellNumeral(n, rest)[0]) || SpellNumeral(n, rest)[0] == MINUS
  {
    ReadUnsigned(n, rest);
    var body := n.whole + SpellFraction(n.fraction, SpellPower(n.power, rest));
    ParseSigned(n.negative, body);
    assert Sign(n.negative) + body == SpellNumeral(n, rest);
  }

  lemma PowerSpelled(s: Text) returns (p: Power)
    ensures PowerOk(p)
    ensures var (power, n) := ExponentPart(s);
            power == PowerOf(p) && s == SpellPower(p, s[n..]) && (n == 0 <==> p.NoPower?)
  {
    var (power, n) := ExponentPart(s);
    if n == 0 {
      p := NoPower;
    } else {
      var signed := |s| > 1 && (s[1] == MINUS || s[1] == '+' as int);
      var start := if signed then 2 else 1;
      var digits := s[start..][..n - start];
      p := Power(s[0], if signed then [s[1]] else [], digits);
      WorthIsValue(digits);
      SplitAt(s[start..], n - start);
      assert s[start..][n - start..] == s[n..];
      assert s == [s[0]] + (p.sign + s[start..]);
    }
  }

  lemma FractionSpelled(s: Text) returns (fraction: Text)
    ensures Decimals(fraction)
    ensures var f := FractionSpan(s);
            && s == SpellFraction(fraction, s[f..]) && (f == 0 <==> fraction == []) && (f > 0 ==> fraction == s[1..f])
  {
    var f := FractionSpan(s);
    if f == 0 {
      fraction := [];
    } else {
      fraction := s[1..f];
      DecimalsAreDigits(fraction);
      assert s == [46] + (s[1..f] + s[f..]);
    }
  }

  lemma AfterWholeSpelled(negative: bool, whole: Text, tail: Text) returns (n: Numeral)
    requires whole != [] && Decimals(whole) && AllDigits(whole) && (whole[0] == 48 ==> |whole| == 1)
    ensures NumeralOk(n) && n.negative == negative && n.whole == whole
    ensures var (x, rest) := ParseAfterInteger(negative, whole, tail);
            x == NumeralValue(n) && tail == SpellFraction(n.fraction, SpellPower(n.power, rest))
  {
    var f := FractionSpan(tail);
    var fraction := FractionSpelled(tail);
    var power := PowerSpelled(tail[f..]);
    n := Numeral(negative, whole, fraction, power);
    AfterIntegerIs(n, tail, ExponentPart(tail[f..]).1);
  }

  /** Whatever is read as a number is a numeral worth that number. */
  lemma NumberSpelled(s: Text) returns (n: Numeral)
    requires ParseNumber(s).Some?
    ensures NumeralOk(n)
    ensures ParseNumber(s).value.0 == NumeralValue(n) && s == SpellNumeral(n, ParseNumber(s).value.1)
  {
    var negative := s[0] == MINUS;
    var body := if negative then s[1..] else s;
    var i := IntegerSpan(body);
    DecimalsAreDigits(body[..i]);
    SplitAt(body, i);
    n := AfterWholeSpelled(negative, body[..i], body[i..]);
    if negative {
      assert s == [45] + body;
    } else {
      assert s == [] + body;
    }
  }

  // ---- Reading strings ---------------------------------------------------

  lemma HexValueIs(c: CodePoint)
    ensures HexValue(c).Some? <==> HexOk(c)
    ensures HexOk(c) ==> HexValue(c) == Some(HexWorth(c))
  {
  }

  lemma HexNumberIs(digits: Text)
    requires UnitOk(Hex(digits))
    ensures HexNumber(digits)
         == ((HexWorth(digits[0]) * 16 + HexWorth(digits[1])) * 16 + HexWorth(digits[2])) * 16 + HexWorth(digits[3])
  {
    assert digits[..3][..2] == digits[..2] && digits[..2][..1] == digits[..1] && digits[..1][..0] == [];
    assert HexNumber(digits[..1]) == HexWorth(digits[0]);
    assert HexNumber(digits[..2]) == HexNumber(digits[..1]) * 16 + HexWorth(digits[1]);
    assert HexNumber(digits[..3]) == HexNumber(digits[..2]) * 16 + HexWorth(digits[2]);
  }

  lemma ReadHex(digits: Text, rest: Text)
    requires UnitOk(Hex(digits))
    ensures ParseHex(digits + rest) == Some(UnitCode(Hex(digits))) && (digits + rest)[4..] == rest
  {
    HexValueIs(digits[0]);
    HexValueIs(digits[1]);
    HexValueIs(digits[2]);
    HexValueIs(digits[3]);
    HexNumberIs(digits);
  }

  lemma HexSpelled(s: Text)
    requires ParseHex(s).Some?
    ensures UnitOk(Hex(s[..4])) && UnitCode(Hex(s[..4])) == ParseHex(s).value && s == s[..4] + s[4..]
  {
    HexValueIs(s[0]);
    HexValueIs(s[1]);
    HexValueIs(s[2]);
    HexValueIs(s[3]);
    HexNumberIs(s[..4]);
  }

  /** What follows a high surrogate is the other half, as the parser looks for it. */
  predicate LowNext(rest: Text) {
    |rest| >= 2 && rest[0] == BACKSLASH && rest[1] == 'u' as int
    && ParseHex(rest[2..]).Some? && IsLow(ParseHex(rest[2..]).value)
  }

  /** The other half follows in the text exactly when it is the next unit. */
  lemma LowNextIff(units: seq<Unit>, rest: Text)
    requires UnitsOk(units)
    ensures LowNext(SpellUnits(units, [0x22] + rest)) <==>
              units != [] && units[0].Hex? && 0xDC00 <= UnitCode(units[0]) <= 0xDFFF
  {
    var s := SpellUnits(units, [0x22] + rest);
    if units == [] {
      assert s[0] == 0x22;
    } else {
      var more := SpellUnits(units[1..], [0x22] + rest);
      match units[0] {
        case Plain(c) => assert s[0] == c;
        case Short(letter) => assert s[1] == letter;
        case Hex(digits) =>
          assert s[2..] == digits + more;
          ReadHex(digits, more);
      }
    }
  }

  lemma ReadShort(letter: CodePoint, rest: Text)
    requires letter in SHORTS
    ensures ParseEscape([letter] + rest) == Some((SHORTS[letter], rest))
  {
    assert ([letter] + rest)[1..] == rest;
  }

  /** An escape in hexadecimal, read alone or with the other half. */
  lemma ReadHexEscape(digits: Text, rest: Text)
    requires UnitOk(Hex(digits))
    ensures var unit := UnitCode(Hex(digits));
            ParseEscape([0x75] + (digits + rest))
            == if IsHigh(unit) && LowNext(rest)
               then Some((0x1_0000 + (unit - 0xD800) * 1024 + (ParseHex(rest[2..]).value - 0xDC00), rest[6..]))
               else Some((unit, rest))
  {
    var s := [0x75] + (digits + rest);
    ReadHex(digits, rest);
    assert s[1..] == digits + rest;
    assert s[5..] == (digits + rest)[4..];
  }

  lemma UnitsTextAlone(u: Unit, units: seq<Unit>)
    requires UnitOk(u) && UnitsOk(units) && (units != [] ==> !PairUp(u, units[0]))
    ensures UnitsOk([u] + units) && UnitsText([u] + units) == [UnitCode(u)] + UnitsText(units)
  {
    assert ([u] + units)[1..] == units;
  }

  lemma UnitsTextPair(a: Unit, b: Unit, units: seq<Unit>)
    requires UnitOk(a) && UnitOk(b) && UnitsOk(units) && PairUp(a, b)
    ensures UnitsOk([a, b] + units)
    ensures UnitsText([a, b] + units) == [PairCode(a, b)] + UnitsText(units)
  {
    assert ([a, b] + units)[2..] == units;
  }

  /** Reading the units of a string gives their text. */
  lemma {:induction false} ReadUnits(units: seq<Unit>, rest: Text)
    requires UnitsOk(units)
    ensures ParseString(SpellUnits(units, [0x22] + rest)) == Some((UnitsText(units), rest))
    decreases |units|
  {
    if units == [] {
      ReadNone(rest);
    } else if |units| >= 2 && PairUp(units[0], units[1]) {
      ReadUnits(units[2..], rest);
      ReadPairThen(units, rest);
    } else {
      ReadUnits(units[1..], rest);
      ReadAloneThen(units, rest);
    }
  }

  lemma ReadNone(rest: Text)
    ensures ParseString([0x22] + rest) == Some(([], rest))
  {
    assert ([0x22] + rest)[1..] == rest;
  }

  lemma ReadPairThen(units: seq<Unit>, rest: Text)
    requires UnitsOk(units) && |units| >= 2 && PairUp(units[0], units[1])
    requires ParseString(SpellUnits(units[2..], [0x22] + rest)) == Some((UnitsText(units[2..]), rest))
    ensures ParseString(SpellUnits(units, [0x22] + rest)) == Some((UnitsText(units), rest))
  {
    var end := [0x22] + rest;
    var last := SpellUnits(units[2..], end);
    SpellTwo(units, end);
    ReadPair(units[0], units[1], last);
    assert Prepend(PairCode(units[0], units[1]), ParseString(last)) == Some((UnitsText(units), rest));
  }

  lemma ReadAloneThen(units: seq<Unit>, rest: Text)
    requires UnitsOk(units) && units != [] && (|units| >= 2 ==> !PairUp(units[0], units[1]))
    requires ParseString(SpellUnits(units[1..], [0x22] + rest)) == Some((UnitsText(units[1..]), rest))
    ensures ParseString(SpellUnits(units, [0x22] + rest)) == Some((UnitsText(units), rest))
  {
    TextOne(units, [0x22] + rest);
    LowNextIff(units[1..], rest);
    NotPaired(units);
    ReadAlone(units[0], SpellUnits(units[1..], [0x22] + rest));
  }

  lemma SpellTwo(units: seq<Unit>, rest: Text)
    requires UnitsOk(units) && |units| >= 2 && PairUp(units[0], units[1])
    ensures SpellUnits(units, rest) == SpellUnit(units[0], SpellUnit(units[1], SpellUnits(units[2..], rest)))
    ensures UnitsText(units) == [PairCode(units[0], units[1])] + UnitsText(units[2..])
  {
    assert units[1..][1..] == units[2..];
  }

  lemma TextOne(units: seq<Unit>, rest: Text)
    requires UnitsOk(units) && units != [] && (|units| >= 2 ==> !PairUp(units[0], units[1]))
    ensures SpellUnits(units, rest) == SpellUnit(units[0], SpellUnits(units[1..], rest))
    ensures UnitsText(units) == [UnitCode(units[0])] + UnitsText(units[1..])
  {
  }

  lemma NotPaired(units: seq<Unit>)
    requires UnitsOk(units) && units != [] && (|units| >= 2 ==> !PairUp(units[0], units[1]))
    ensures units[0].Hex? && IsHigh(UnitCode(units[0])) ==>
              !(units[1..] != [] && units[1..][0].Hex? && 0xDC00 <= UnitCode(units[1..][0]) <= 0xDFFF)
  {
  }

  lemma ReadAlone(u: Unit, more: Text)
    requires UnitOk(u) && (u.Hex? && IsHigh(UnitCode(u)) ==> !LowNext(more))
    ensures ParseString(SpellUnit(u, more)) == Prepend(UnitCode(u), ParseString(more))
  {
    var s := SpellUnit(u, more);
    match u {
      case Plain(c) =>
        assert s[1..] == more;
      case Short(letter) =>
        assert s[1..] == [letter] + more;
        ReadShort(letter, more);
      case Hex(digits) =>
        assert s[1..] == [0x75] + (digits + more);
        ReadHexEscape(digits, more);
    }
  }

  lemma ReadPair(a: Unit, b: Unit, more: Text)
    requires UnitOk(a) && UnitOk(b) && PairUp(a, b)
    ensures ParseString(SpellUnit(a, SpellUnit(b, more))) == Prepend(PairCode(a, b), ParseString(more))
  {
    var s, next := SpellUnit(a, SpellUnit(b, more)), SpellUnit(b, more);
    assert s[1..] == [0x75] + (a.digits + next);
    ReadHexEscape(a.digits, next);
    assert next[2..] == b.digits + more;
    ReadHex(b.digits, more);
    DropTwice(next, 2, 4);
  }

  lemma ShortSpelled(s: Text)
    requires s != [] && s[0] != 'u' as int && ParseEscape(s).Some?
    ensures s[0] in SHORTS && ParseEscape(s) == Some((SHORTS[s[0]], s[1..])) && s == [s[0]] + s[1..]
  {
  }

  /** Whatever is read as a string is made of units with that text. */
  lemma {:induction false} StringSpelled(s: Text) returns (units: seq<Unit>)
    requires ParseString(s).Some?
    ensures UnitsOk(units) && UnitsText(units) == ParseString(s).value.0
    ensures s == SpellUnits(units, [0x22] + ParseString(s).value.1)
    decreases |s|
  {
    if s[0] == QUOTE {
      units := [];
      assert s == [0x22] + s[1..];
    } else if s[0] != BACKSLASH {
      var more := StringSpelled(s[1..]);
      units := [Plain(s[0])] + more;
      UnitsTextAlone(Plain(s[0]), more);
      assert units[1..] == more && s == [s[0]] + s[1..];
    } else if s[1] != 'u' as int {
      ShortSpelled(s[1..]);
      var more := StringSpelled(s[2..]);
      units := [Short(s[1])] + more;
      UnitsTextAlone(Short(s[1]), more);
      assert s[1..][1..] == s[2..];
      assert units[1..] == more && s == [0x5C] + ([s[1]] + s[2..]);
    } else {
      units := HexStringSpelled(s);
    }
  }

  lemma {:induction false} HexStringSpelled(s: Text) returns (units: seq<Unit>)
    requires ParseString(s).Some? && |s| >= 2 && s[0] == BACKSLASH && s[1] == 'u' as int
    ensures UnitsOk(units) && UnitsText(units) == ParseString(s).value.0
    ensures s == SpellUnits(units, [0x22] + ParseString(s).value.1)
    decreases |s|, 0
  {
    var first, rest := HexAtFront(s);
    if IsHigh(UnitCode(first)) && LowNext(rest) {
      var second, last := HexAtFront(rest);
      ReadPair(first, second, last);
      var more := StringSpelled(last);
      units := PairBefore(first, second, more, [0x22] + ParseString(last).value.1);
    } else {
      ReadAlone(first, rest);
      var more := StringSpelled(rest);
      LowNextIff(more, ParseString(rest).value.1);
      units := [first] + more;
      UnitsTextAlone(first, more);
      assert units[1..] == more;
    }
  }

  lemma PairBefore(a: Unit, b: Unit, more: seq<Unit>, end: Text) returns (units: seq<Unit>)
    requires UnitOk(a) && UnitOk(b) && PairUp(a, b) && UnitsOk(more)
    ensures UnitsOk(units) && SpellUnits(units, end) == SpellUnit(a, SpellUnit(b, SpellUnits(more, end)))
    ensures UnitsText(units) == [PairCode(a, b)] + UnitsText(more)
  {
    units := [a, b] + more;
    UnitsTextPair(a, b, more);
    assert units[1..] == [b] + more && units[1..][1..] == more;
  }

  lemma HexAtFront(s: Text) returns (u: Unit, rest: Text)
    requires |s| >= 2 && s[0] == BACKSLASH && s[1] == 'u' as int
    requires ParseString(s).Some? || ParseHex(s[2..]).Some?
    ensures u.Hex? && UnitOk(u) && s == SpellUnit(u, rest) && ParseHex(s[2..]) == Some(UnitCode(u)) && |rest| < |s|
  {
    assert s[1..][1..] == s[2..];
    HexSpelled(s[2..]);
    u, rest := Hex(s[2..][..4]), s[6..];
    DropTwice(s, 2, 4);
    assert s == [0x5C] + ([0x75] + s[2..]);
  }

  // ---- Reading values ----------------------------------------------------

  /** No document starts with white space or with a closing bracket. */
  lemma SpellStarts(d: Doc, rest: Text)
    requires DocOk(d)
    ensures Spell(d, rest) != [] && !IsSpace(Spell(d, rest)[0]) && Spell(d, rest)[0] != CLOSE_ARRAY
    ensures SkipSpace(Spell(d, rest)) == Spell(d, rest)
  {
    if d.NumberDoc? {
      var n := d.n;
      assert SpellNumeral(n, rest)[0] == if n.negative then 45 else n.whole[0];
    }
  }

  lemma SkipToDoc(p: Padded, rest: Text)
    requires PaddedOk(p)
    ensures SkipSpace(SpellPadded(p, rest)) == Spell(p.doc, p.after + rest)
  {
    SkipGap(p.before, Spell(p.doc, p.after + rest));
    SpellStarts(p.doc, p.after + rest);
  }

  lemma SkipToString(gap: Text, units: seq<Unit>, rest: Text)
    requires Gap(gap)
    ensures SkipSpace(gap + SpellString(units, rest)) == SpellString(units, rest)
  {
    SkipGap(gap, SpellString(units, rest));
  }

  lemma SkipToMark(gap: Text, mark: CodePoint, rest: Text)
    requires Gap(gap) && !IsSpace(mark)
    ensures SkipSpace(gap + ([mark] + rest)) == [mark] + rest
    ensures !IsDigit(mark) && mark != DOT && mark != 'e' as int && mark != 'E' as int ==>
              EndsNumber(gap + ([mark] + rest))
  {
    SkipGap(gap, [mark] + rest);
    if !IsDigit(mark) && mark != DOT && mark != 'e' as int && mark != 'E' as int {
      GapEndsNumber(gap, [mark] + rest);
    }
  }

  lemma ReadWord(nfc: Nfc, d: Doc, rest: Text)
    requires d.NullDoc? || d.BoolDoc?
    ensures ParseValue(nfc, Spell(d, rest)) == Some((if d.NullDoc? then Null else Bool(d.b), rest))
  {
    var s := Spell(d, rest);
    var token := if d.NullDoc? then NULL_TOKEN else if d.b then TRUE_TOKEN else FALSE_TOKEN;
    assert s == token + rest && s[..|token|] == token && s[|token|..] == rest;
  }

  lemma ReadNumberDoc(nfc: Nfc, n: Numeral, rest: Text)
    requires NumeralOk(n) && EndsNumber(rest)
    ensures ParseValue(nfc, SpellNumeral(n, rest)) == Some((Num(NumeralValue(n)), rest))
  {
    ReadNumeral(n, rest);
    StartsNoWord(SpellNumeral(n, rest));
  }

  lemma FirstOfToken(s: Text, token: Text)
    requires token != []
    ensures StartsWith(s, token) ==> s != [] && s[0] == token[0]
  {
    assert |token| <= |s| ==> s[..|token|][0] == s[0];
  }

  lemma StartsNoWord(s: Text)
    requires s != [] && (IsDigit(s[0]) || s[0] == MINUS)
    ensures !StartsWith(s, NULL_TOKEN) && !StartsWith(s, TRUE_TOKEN) && !StartsWith(s, FALSE_TOKEN)
  {
    FirstOfToken(s, NULL_TOKEN);
    FirstOfToken(s, TRUE_TOKEN);
    FirstOfToken(s, FALSE_TOKEN);
  }

  lemma ReadStringDoc(nfc: Nfc, units: seq<Unit>, rest: Text)
    requires UnitsOk(units)
    ensures ParseValue(nfc, SpellString(units, rest)) == Some((Str(UnitsText(units)), rest))
  {
    assert SpellString(units, rest)[1..] == SpellUnits(units, [0x22] + rest);
    ReadUnits(units, rest);
  }

  /** The values of the items, one by one. */
  ghost predicate ItemsMean(nfc: Nfc, items: seq<Padded>, vs: seq<Value>) {
    |vs| == |items| && forall i | 0 <= i < |items| :: PaddedOk(items[i]) && Means(nfc, items[i].doc, vs[i])
  }

  /** The pairs of the members, one by one, their keys as they are. */
  ghost predicate MembersMean(nfc: Nfc, members: seq<Member>, pairs: seq<Field>) {
    && |pairs| == |members|
    && forall i | 0 <= i < |members| ::
         && MemberOk(members[i]) && PaddedOk(members[i].value) && UnitsOk(members[i].key) && DocOk(members[i].value.doc)
         && pairs[i].key == UnitsText(members[i].key) && Means(nfc, members[i].value.doc, pairs[i].value)
  }

  /** Reading a document gives the value it stands for, and leaves the rest. */
  lemma {:induction false} ReadDoc(nfc: Nfc, d: Doc, v: Value, rest: Text)
    requires DocOk(d) && Means(nfc, d, v) && EndsNumber(rest)
    ensures ParseValue(nfc, Spell(d, rest)) == Some((v, rest))
    decreases d, 0
  {
    match d {
      case NullDoc => ReadWord(nfc, d, rest);
      case BoolDoc(_) => ReadWord(nfc, d, rest);
      case NumberDoc(n) => ReadNumberDoc(nfc, n, rest);
      case StringDoc(units) => ReadStringDoc(nfc, units, rest);
      case ArrayDoc(gap, items) => ReadArray(nfc, gap, items, v, rest);
      case ObjectDoc(gap, members) => ReadObject(nfc, gap, members, v, rest);
    }
  }

  lemma {:induction false} ReadArray(nfc: Nfc, gap: Text, items: seq<Padded>, v: Value, rest: Text)
    requires DocOk(ArrayDoc(gap, items)) && Means(nfc, ArrayDoc(gap, items), v)
    ensures ParseValue(nfc, Spell(ArrayDoc(gap, items), rest)) == Some((v, rest))
    decreases items, 2
  {
    var s := Spell(ArrayDoc(gap, items), rest);
    if items == [] {
      assert s[1..] == gap + ([93] + rest);
      SkipToMark(gap, 93, rest);
      assert ([93] + rest)[1..] == rest;
    } else {
      assert s[1..] == SpellItems(items, [93] + rest);
      ItemsStart(items, [93] + rest);
      ReadItems(nfc, items, v.items, rest);
    }
  }

  lemma ItemsStart(items: seq<Padded>, rest: Text)
    requires items != [] && PaddedOk(items[0])
    ensures SkipSpace(SpellItems(items, rest)) != [] && SkipSpace(SpellItems(items, rest))[0] != CLOSE_ARRAY
  {
    var next := if |items| == 1 then rest else [44] + SpellItems(items[1..], rest);
    SkipToDoc(items[0], next);
    SpellStarts(items[0].doc, items[0].after + next);
  }

  lemma {:induction false} ReadItems(nfc: Nfc, items: seq<Padded>, vs: seq<Value>, rest: Text)
    requires items != [] && ItemsMean(nfc, items, vs)
    ensures ParseItems(nfc, SkipSpace(SpellItems(items, [93] + rest))) == Some((vs, rest))
    decreases items, 1
  {
    if |items| == 1 {
      ReadDoc(nfc, items[0].doc, vs[0], items[0].after + LastEnds(items[0], 93, rest));
      ReadLastItem(nfc, items[0], vs[0], rest);
      assert vs == [vs[0]];
    } else {
      var more := SpellItems(items[1..], [93] + rest);
      ReadDoc(nfc, items[0].doc, vs[0], items[0].after + LastEnds(items[0], 44, more));
      ReadItems(nfc, items[1..], vs[1..], rest);
      ReadNextItem(nfc, items[0], vs[0], more, vs[1..], rest);
      assert vs == [vs[0]] + vs[1..];
    }
  }

  /** A mark and the rest, which may stand after a value and its white space. */
  function LastEnds(p: Padded, mark: CodePoint, rest: Text): (s: Text)
    requires PaddedOk(p) && (mark == 44 || mark == 93 || mark == 125)
    ensures s == [mark] + rest && EndsNumber(p.after + s)
  {
    SkipToMark(p.after, mark, rest);
    [mark] + rest
  }

  lemma ReadLastItem(nfc: Nfc, p: Padded, v: Value, rest: Text)
    requires PaddedOk(p)
    requires ParseValue(nfc, Spell(p.doc, p.after + ([93] + rest))) == Some((v, p.after + ([93] + rest)))
    ensures ParseItems(nfc, SkipSpace(SpellPadded(p, [93] + rest))) == Some(([v], rest))
  {
    SkipToDoc(p, [93] + rest);
    SkipToMark(p.after, 93, rest);
    assert ([93] + rest)[1..] == rest;
  }

  lemma ReadNextItem(nfc: Nfc, p: Padded, v: Value, more: Text, vs: seq<Value>, rest: Text)
    requires PaddedOk(p)
    requires ParseValue(nfc, Spell(p.doc, p.after + ([44] + more))) == Some((v, p.after + ([44] + more)))
    requires ParseItems(nfc, SkipSpace(more)) == Some((vs, rest))
    ensures ParseItems(nfc, SkipSpace(SpellPadded(p, [44] + more))) == Some(([v] + vs, rest))
  {
    SkipToDoc(p, [44] + more);
    SkipToMark(p.after, 44, more);
    assert ([44] + more)[1..] == more;
  }

  lemma {:induction false} ReadObject(nfc: Nfc, gap: Text, members: seq<Member>, v: Value, rest: Text)
    requires DocOk(ObjectDoc(gap, members)) && Means(nfc, ObjectDoc(gap, members), v)
    ensures ParseValue(nfc, Spell(ObjectDoc(gap, members), rest)) == Some((v, rest))
    decreases members, 2
  {
    var s := Spell(ObjectDoc(gap, members), rest);
    if members == [] {
      assert s[1..] == gap + ([125] + rest);
      SkipToMark(gap, 125, rest);
      assert ([125] + rest)[1..] == rest;
    } else {
      assert s[1..] == SpellMembers(members, [125] + rest);
      var pairs := PairsOf(members, v.fields);
      forall i | 0 <= i < |members| ensures MemberOk(members[i]) && PaddedOk(members[i].value) {
        assert MemberOk(members[i]);
      }
      MembersStart(members, [125] + rest);
      ReadMembers(nfc, members, pairs, rest);
      PairsCollected(nfc, members, pairs, v.fields);
    }
  }

  /** The fields under the keys as they stand in the text. */
  function PairsOf(members: seq<Member>, fields: seq<Field>): (pairs: seq<Field>)
    requires |fields| == |members| && forall i | 0 <= i < |members| :: UnitsOk(members[i].key)
    ensures |pairs| == |members|
  {
    seq(|members|, i requires 0 <= i < |members| => Field(UnitsText(members[i].key), fields[i].value))
  }

  /** Collecting the pairs renames the keys, and works exactly when the renamed keys differ. */
  lemma PairsCollected(nfc: Nfc, members: seq<Member>, pairs: seq<Field>, fields: seq<Field>)
    requires |pairs| == |fields| == |members|
    requires forall i | 0 <= i < |members| :: fields[i] == Field(nfc(pairs[i].key), pairs[i].value)
    ensures PairsToDict(nfc, pairs).Some? <==> forall i, j | 0 <= i < j < |fields| :: fields[i].key != fields[j].key
    ensures PairsToDict(nfc, pairs).Some? ==> PairsToDict(nfc, pairs) == Some(fields)
  {
    var renamed := seq(|pairs|, i requires 0 <= i < |pairs| => Field(nfc(pairs[i].key), pairs[i].value));
    assert renamed == fields;
  }

  lemma MembersStart(members: seq<Member>, rest: Text)
    requires members != [] && MemberOk(members[0])
    ensures SkipSpace(SpellMembers(members, rest)) != [] && SkipSpace(SpellMembers(members, rest))[0] != CLOSE_OBJECT
  {
    var next := if |members| == 1 then rest else [44] + SpellMembers(members[1..], rest);
    SkipToMember(members[0], next);
  }

  lemma SkipToMember(m: Member, rest: Text)
    requires MemberOk(m)
    ensures SkipSpace(SpellMember(m, rest)) == SpellString(m.key, m.middle + ([58] + SpellPadded(m.value, rest)))
  {
    SkipToString(m.before, m.key, m.middle + ([58] + SpellPadded(m.value, rest)));
  }

  lemma {:induction false} ReadMember(nfc: Nfc, m: Member, v: Value, rest: Text)
    requires MemberOk(m) && UnitsOk(m.key) && DocOk(m.value.doc) && Means(nfc, m.value.doc, v)
    requires EndsNumber(m.value.after + rest)
    ensures ParseField(nfc, SkipSpace(SpellMember(m, rest)))
         == Some((Field(UnitsText(m.key), v), m.value.after + rest))
    decreases m, 0
  {
    var value := SpellPadded(m.value, rest);
    var tail := m.middle + ([58] + value);
    var s := SpellString(m.key, tail);
    SkipToMember(m, rest);
    assert s[1..] == SpellUnits(m.key, [0x22] + tail);
    ReadUnits(m.key, tail);
    SkipToMark(m.middle, 58, value);
    assert ([58] + value)[1..] == value;
    SkipToDoc(m.value, rest);
    ReadDoc(nfc, m.value.doc, v, m.value.after + rest);
  }

  lemma {:induction false} ReadMembers(nfc: Nfc, members: seq<Member>, pairs: seq<Field>, rest: Text)
    requires members != [] && MembersMean(nfc, members, pairs)
    ensures ParseFields(nfc, SkipSpace(SpellMembers(members, [125] + rest))) == Some((pairs, rest))
    decreases members, 1
  {
    var m := members[0];
    assert MemberOk(m) && PaddedOk(m.value) && pairs[0] == Field(UnitsText(m.key), pairs[0].value);
    if |members| == 1 {
      ReadMember(nfc, m, pairs[0].value, LastEnds(m.value, 125, rest));
      ReadLastMember(nfc, m, pairs[0], rest);
      assert pairs == [pairs[0]];
    } else {
      var more := SpellMembers(members[1..], [125] + rest);
      MembersTail(nfc, members, pairs);
      ReadMembers(nfc, members[1..], pairs[1..], rest);
      ReadMember(nfc, m, pairs[0].value, LastEnds(m.value, 44, more));
      ReadNextMember(nfc, m, pairs[0], more, pairs[1..], rest);
      SplitFirst(pairs);
    }
  }

  lemma {:induction false} MembersTail(nfc: Nfc, members: seq<Member>, pairs: seq<Field>)
    requires members != [] && MembersMean(nfc, members, pairs)
    ensures MembersMean(nfc, members[1..], pairs[1..])
  {
  }

  lemma ReadLastMember(nfc: Nfc, m: Member, f: Field, rest: Text)
    requires MemberOk(m) && PaddedOk(m.value)
    requires ParseField(nfc, SkipSpace(SpellMember(m, [125] + rest))) == Some((f, m.value.after + ([125] + rest)))
    ensures ParseFields(nfc, SkipSpace(SpellMember(m, [125] + rest))) == Some(([f], rest))
  {
    SkipToMark(m.value.after, 125, rest);
    assert ([125] + rest)[1..] == rest;
  }

  lemma ReadNextMember(nfc: Nfc, m: Member, f: Field, more: Text, fields: seq<Field>, rest: Text)
    requires MemberOk(m) && PaddedOk(m.value)
    requires ParseField(nfc, SkipSpace(SpellMember(m, [44] + more))) == Some((f, m.value.after + ([44] + more)))
    requires ParseFields(nfc, SkipSpace(more)) == Some((fields, rest))
    ensures ParseFields(nfc, SkipSpace(SpellMember(m, [44] + more))) == Some(([f] + fields, rest))
  {
    SkipToMark(m.value.after, 44, more);
    assert ([44] + more)[1..] == more;
  }

  // ---- Whatever is read is spelled ---------------------------------------

  /** Whatever is read as a value is the text of a document that stands for it. */
  lemma {:induction false} DocSpelled(nfc: Nfc, s: Text) returns (d: Doc)
    requires ParseValue(nfc, s).Some?
    ensures DocOk(d) && Means(nfc, d, ParseValue(nfc, s).value.0) && s == Spell(d, ParseValue(nfc, s).value.1)
    decreases |s|, 1
  {
    if s[0] == QUOTE {
      var units := StringSpelled(s[1..]);
      d := StringDoc(units);
      assert s == [0x22] + s[1..];
    } else if s[0] == OPEN_OBJECT {
      d := ObjectSpelled(nfc, s);
    } else if s[0] == OPEN_ARRAY {
      d := ArraySpelled(nfc, s);
    } else if StartsWith(s, NULL_TOKEN) || StartsWith(s, TRUE_TOKEN) || StartsWith(s, FALSE_TOKEN) {
      d := WordSpelled(nfc, s);
    } else {
      var n := NumberSpelled(s);
      d := NumberDoc(n);
    }
  }

  lemma WordSpelled(nfc: Nfc, s: Text) returns (d: Doc)
    requires s != [] && s[0] != QUOTE && s[0] != OPEN_OBJECT && s[0] != OPEN_ARRAY
    requires StartsWith(s, NULL_TOKEN) || StartsWith(s, TRUE_TOKEN) || StartsWith(s, FALSE_TOKEN)
    ensures ParseValue(nfc, s).Some? && DocOk(d)
    ensures Means(nfc, d, ParseValue(nfc, s).value.0) && s == Spell(d, ParseValue(nfc, s).value.1)
  {
    if StartsWith(s, NULL_TOKEN) {
      d := NullDoc;
      SplitAt(s, 4);
    } else if StartsWith(s, TRUE_TOKEN) {
      d := BoolDoc(true);
      SplitAt(s, 4);
    } else {
      d := BoolDoc(false);
      SplitAt(s, 5);
    }
  }

  lemma MarkFirst(s: Text, mark: CodePoint)
    requires s != [] && s[0] == mark
    ensures s == [mark] + s[1..]
  {
  }

  lemma {:induction false} ArraySpelled(nfc: Nfc, s: Text) returns (d: Doc)
    requires s != [] && s[0] == OPEN_ARRAY && ParseValue(nfc, s).Some?
    ensures DocOk(d) && Means(nfc, d, ParseValue(nfc, s).value.0) && s == Spell(d, ParseValue(nfc, s).value.1)
    decreases |s|, 0
  {
    var gap := GapSkipped(s[1..]);
    var inner := SkipSpace(s[1..]);
    MarkFirst(s, 91);
    if inner != [] && inner[0] == CLOSE_ARRAY {
      MarkFirst(inner, 93);
      d := ArrayDoc(gap, []);
    } else {
      var items := ItemsSpelled(nfc, inner, gap);
      d := ArrayDoc([], items);
    }
  }

  /** The items read from `s`, the first one after the white space `gap`. */
  lemma {:induction false} ItemsSpelled(nfc: Nfc, s: Text, gap: Text) returns (items: seq<Padded>)
    requires ParseItems(nfc, s).Some? && Gap(gap)
    ensures items != [] && ItemsMean(nfc, items, ParseItems(nfc, s).value.0)
    ensures gap + s == SpellItems(items, [93] + ParseItems(nfc, s).value.1)
    decreases |s|, 3
  {
    var (v, after) := ParseValue(nfc, s).value;
    var d := DocSpelled(nfc, s);
    var space := GapSkipped(after);
    var p := Padded(gap, d, space);
    var rest := SkipSpace(after);
    if rest[0] == CLOSE_ARRAY {
      MarkFirst(rest, 93);
      items := [p];
    } else {
      MarkFirst(rest, 44);
      var next := GapSkipped(rest[1..]);
      var more := ItemsSpelled(nfc, SkipSpace(rest[1..]), next);
      items := [p] + more;
      assert items[1..] == more;
    }
  }

  lemma {:induction false} ObjectSpelled(nfc: Nfc, s: Text) returns (d: Doc)
    requires s != [] && s[0] == OPEN_OBJECT && ParseValue(nfc, s).Some?
    ensures DocOk(d) && Means(nfc, d, ParseValue(nfc, s).value.0) && s == Spell(d, ParseValue(nfc, s).value.1)
    decreases |s|, 0
  {
    var gap := GapSkipped(s[1..]);
    var inner := SkipSpace(s[1..]);
    MarkFirst(s, 123);
    if inner != [] && inner[0] == CLOSE_OBJECT {
      MarkFirst(inner, 125);
      d := ObjectDoc(gap, []);
    } else {
      var members := MembersSpelled(nfc, inner, gap);
      d := ObjectDoc([], members);
      var pairs := ParseFields(nfc, inner).value.0;
      var fields := seq(|pairs|, i requires 0 <= i < |pairs| => Field(nfc(pairs[i].key), pairs[i].value));
      PairsCollected(nfc, members, pairs, fields);
    }
  }

  lemma {:induction false} MemberSpelled(nfc: Nfc, s: Text, gap: Text) returns (m: Member)
    requires ParseField(nfc, s).Some? && Gap(gap)
    ensures MemberOk(m) && PaddedOk(m.value) && UnitsOk(m.key) && DocOk(m.value.doc)
    ensures var (f, rest) := ParseField(nfc, s).value;
            && f.key == UnitsText(m.key) && Means(nfc, m.value.doc, f.value)
            && gap + s == SpellMember(m, SkipSpace(rest))
    decreases |s|, 2
  {
    var (key, after) := ParseString(s[1..]).value;
    var units := StringSpelled(s[1..]);
    MarkFirst(s, 0x22);
    var middle := GapSkipped(after);
    var rest := SkipSpace(after);
    MarkFirst(rest, 58);
    var before := GapSkipped(rest[1..]);
    var inner := SkipSpace(rest[1..]);
    var d := DocSpelled(nfc, inner);
    var space := GapSkipped(ParseValue(nfc, inner).value.1);
    m := Member(gap, units, middle, Padded(before, d, space));
  }

  lemma {:induction false} MembersSpelled(nfc: Nfc, s: Text, gap: Text) returns (members: seq<Member>)
    requires ParseFields(nfc, s).Some? && Gap(gap)
    ensures members != [] && MembersMean(nfc, members, ParseFields(nfc, s).value.0)
    ensures gap + s == SpellMembers(members, [125] + ParseFields(nfc, s).value.1)
    decreases |s|, 3
  {
    var (f, after) := ParseField(nfc, s).value;
    var m := MemberSpelled(nfc, s, gap);
    var rest := SkipSpace(after);
    if rest[0] == CLOSE_OBJECT {
      MarkFirst(rest, 125);
      members := [m];
    } else {
      MarkFirst(rest, 44);
      var next := GapSkipped(rest[1..]);
      var more := MembersSpelled(nfc, SkipSpace(rest[1..]), next);
      members := [m] + more;
      MembersMore(nfc, m, more, f, ParseFields(nfc, SkipSpace(rest[1..])).value.0);
      assert members[1..] == more;
    }
  }

  lemma {:induction false} MembersMore(nfc: Nfc, m: Member, more: seq<Member>, f: Field, fields: seq<Field>)
    requires MemberOk(m) && PaddedOk(m.value) && UnitsOk(m.key) && DocOk(m.value.doc)
    requires f.key == UnitsText(m.key) && Means(nfc, m.value.doc, f.value) && MembersMean(nfc, more, fields)
    ensures MembersMean(nfc, [m] + more, [f] + fields)
  {
  }

  // ---- The strict parser -------------------------------------------------

  /** The strict parser accepts exactly the texts of the grammar whose objects have distinct NFC keys, each with the
      value it spells. */
  lemma LoadsIffSpells(nfc: Nfc, t: Text, v: Value)
    ensures StrictLoads(nfc, t) == Some(v) <==> Spells(nfc, t, v)
  {
    if StrictLoads(nfc, t) == Some(v) {
      var before := GapSkipped(t);
      var d := DocSpelled(nfc, SkipSpace(t));
      var rest := ParseValue(nfc, SkipSpace(t)).value.1;
      var after := GapSkipped(rest);
      assert after + [] == after == rest;
      var p := Padded(before, d, rest);
      assert PaddedOk(p) && SpellPadded(p, []) == t && Means(nfc, p.doc, v);
    }
    if p :| PaddedOk(p) && SpellPadded(p, []) == t && Means(nfc, p.doc, v) {
      SkipToDoc(p, []);
      GapEndsNumber(p.after, []);
      SkipGap(p.after, []);
      ReadDoc(nfc, p.doc, v, p.after + []);
    }
  }

  /** A text spells one value at most. */
  lemma SpellsOne(nfc: Nfc, t: Text, v: Value, w: Value)
    requires Spells(nfc, t, v) && Spells(nfc, t, w)
    ensures v == w
  {
    LoadsIffSpells(nfc, t, v);
    LoadsIffSpells(nfc, t, w);
  }

  /** The same of UTF-8 bytes. */
  lemma LoadsBytesIffSpells(nfc: Nfc, b: seq<Byte>, v: Value)
    ensures StrictLoadsBytes(nfc, b) == Some(v) <==> exists t :: Encodable(t) && b == Encode(t) && Spells(nfc, t, v)
  {
    if StrictLoadsBytes(nfc, b) == Some(v) {
      var t := Decode(b).value;
      DecodeIffEncoded(b, t);
      LoadsIffSpells(nfc, t, v);
    }
    if t :| Encodable(t) && b == Encode(t) && Spells(nfc, t, v) {
      DecodeIffEncoded(b, t);
      LoadsIffSpells(nfc, t, v);
    }
  }
}
