/** Canonical text among all the texts that spell a value: the one without anything to spare. */
module JsonCanonical {
  import opened Sequences
  import opened Utf8
  import opened JsonNumbers
  import opened JsonStrings
  import opened CanonicalJson
  import opened JsonGrammar

  // ---- Bare spellings ----------------------------------------------------

  /** A character stands for itself where it can; else it is escaped by a letter, or if there is none in lower-case
      hexadecimal. The solidus is not escaped. */
  predicate UnitBare(u: Unit)
    requires UnitOk(u)
  {
    match u
    case Plain(_) => true
    case Short(letter) => letter != 0x2F
    case Hex(digits) =>
      && UnitCode(u) < 0x20 && UnitCode(u) !in {0x08, 0x09, 0x0A, 0x0C, 0x0D}
      && forall i | 0 <= i < 4 :: !(65 <= digits[i] <= 70)
  }

  predicate UnitsBare(units: seq<Unit>)
    requires UnitsOk(units)
  {
    forall i | 0 <= i < |units| :: UnitBare(units[i])
  }

  /** No power, no trailing zero after the point, and no negative zero. */
  predicate NumeralBare(n: Numeral)
    requires NumeralOk(n)
  {
    && n.power.NoPower?
    && (n.fraction != [] ==> n.fraction[|n.fraction| - 1] != 48)
    && (n.negative ==> n.fraction != [] || n.whole != [48])
  }

  /** No white space anywhere, nothing spelled longer than it has to be, and keys in NFC. */
  predicate DocBare(nfc: Nfc, d: Doc)
    requires DocOk(d)
  {
    match d
    case NullDoc => true
    case BoolDoc(_) => true
    case NumberDoc(n) => NumeralBare(n)
    case StringDoc(units) => UnitsBare(units)
    case ArrayDoc(gap, items) =>
      && gap == []
      && forall i | 0 <= i < |items| ::
           items[i].before == [] && items[i].after == [] && DocOk(items[i].doc) && DocBare(nfc, items[i].doc)
    case ObjectDoc(gap, members) =>
      && gap == []
      && forall i | 0 <= i < |members| ::
           && members[i].before == [] && members[i].middle == []
           && members[i].value.before == [] && members[i].value.after == []
           && UnitsOk(members[i].key) && UnitsBare(members[i].key)
           && nfc(UnitsText(members[i].key)) == UnitsText(members[i].key)
           && DocOk(members[i].value.doc) && DocBare(nfc, members[i].value.doc)
  }

  // ---- Numbers -----------------------------------------------------------

  lemma {:induction false} WorthPositive(s: Text)
    requires Decimals(s) && s != [] && s[0] != 48
    ensures Worth(s) > 0
  {
    PlacePositive(s[0] - 48, |s| - 1);
  }

  lemma PlacePositive(d: nat, k: nat)
    requires d > 0
    ensures d * Pow10(k) > 0
  {
  }

  /** Digits that do not start with a zero to spare are the digits of their worth. */
  lemma {:induction false} DigitsOfWorth(s: Text)
    requires Decimals(s) && s != [] && (s[0] == 48 ==> |s| == 1)
    ensures Digits(Worth(s)) == s
  {
    var front, last := s[..|s| - 1], s[|s| - 1];
    SplitLast(s);
    WorthAppend(front, last);
    if front == [] {
      assert Worth(front) == 0 && s == [last];
    } else {
      WorthPositive(front);
      DigitsOfWorth(front);
    }
  }

  lemma LastDigit(w: nat, d: nat)
    requires d < 10
    ensures (w * 10 + d) / 10 == w && (w * 10 + d) % 10 == d
  {
  }

  /** One digit more after the point. */
  lemma OnePlace(w: nat, c: CodePoint, places: nat)
    requires 48 <= c <= 57
    ensures Shift(w * 10 + (c - 48), places + 1) == Shift(w, places)
    ensures Pad(w * 10 + (c - 48), places + 1) == Pad(w, places) + [c]
  {
    LastDigit(w, c - 48);
  }

  /** The last digit added to all before it. */
  lemma WorthLast(whole: Text, fraction: Text)
    requires Decimals(whole) && Decimals(fraction) && fraction != []
    ensures var front, last := fraction[..|fraction| - 1], fraction[|fraction| - 1];
            && Decimals(whole + front) && Decimals(whole + fraction)
            && Worth(whole + fraction) == Worth(whole + front) * 10 + (last - 48)
  {
    var front, last := fraction[..|fraction| - 1], fraction[|fraction| - 1];
    SplitLast(fraction);
    Associate(whole, front, [last]);
    DecimalsConcat(whole, front);
    WorthAppend(whole + front, last);
  }

  /** The places after the point, and the digits before it, told apart again. */
  lemma {:induction false} PlacesOfWorth(whole: Text, fraction: Text)
    requires Decimals(whole) && Decimals(fraction) && Decimals(whole + fraction)
    ensures Shift(Worth(whole + fraction), |fraction|) == Worth(whole)
    ensures Pad(Worth(whole + fraction), |fraction|) == fraction
  {
    if fraction == [] {
      assert whole + fraction == whole;
    } else {
      var front, last := fraction[..|fraction| - 1], fraction[|fraction| - 1];
      SplitLast(fraction);
      WorthLast(whole, fraction);
      PlacesOfWorth(whole, front);
      OnePlace(Worth(whole + front), last, |front|);
    }
  }

  lemma NotOnlyZero(s: Text)
    requires s != [] && (s[0] == 48 ==> |s| == 1) && s != [48]
    ensures s[0] != 48
  {
    assert s[0] == 48 ==> s == [48];
  }

  lemma BareWhole(n: Numeral, rest: Text)
    requires NumeralOk(n) && NumeralBare(n) && n.fraction == []
    ensures NumeralValue(n).Whole? && SpellNumeral(n, rest) == ShowInt(NumeralValue(n).n) + rest
  {
    DigitsOfWorth(n.whole);
    if n.negative {
      NotOnlyZero(n.whole);
      WorthPositive(n.whole);
      Associate([45], n.whole, rest);
    } else {
      assert [] + (n.whole + rest) == n.whole + rest;
    }
  }

  /** A bare fraction is worth a decimal whose parts are its digits again. */
  lemma BareFraction(n: Numeral)
    requires NumeralOk(n) && NumeralBare(n) && n.fraction != []
    ensures var x := NumeralValue(n);
            && NormalNumber(x) && x.Fractional? && x.d.exponent == -|n.fraction| && x.d.negative == n.negative
            && Digits(Shift(x.d.coefficient, |n.fraction|)) == n.whole
            && Pad(x.d.coefficient, |n.fraction|) == n.fraction
  {
    DecimalsConcat(n.whole, n.fraction);
    PlacesOfWorth(n.whole, n.fraction);
    DigitsOfWorth(n.whole);
    LastDigitWorth(n.whole, n.fraction);
  }

  lemma BareFractionText(n: Numeral, rest: Text)
    requires NumeralOk(n) && NumeralBare(n) && n.fraction != []
    ensures NormalNumber(NumeralValue(n)) && SpellNumeral(n, rest) == ShowNumber(NumeralValue(n)) + rest
  {
    BareFraction(n);
    FiveParts(Sign(n.negative), n.whole, [DOT], n.fraction, rest);
  }

  lemma FiveParts(a: Text, b: Text, c: Text, d: Text, rest: Text)
    ensures a + (b + (c + (d + rest))) == a + b + c + d + rest
  {
  }

  /** The last digit is the remainder by ten. */
  lemma LastDigitWorth(whole: Text, fraction: Text)
    requires Decimals(whole) && Decimals(fraction) && fraction != [] && Decimals(whole + fraction)
    ensures Worth(whole + fraction) % 10 == fraction[|fraction| - 1] - 48
  {
    WorthLast(whole, fraction);
    LastDigit(Worth(whole + fraction[..|fraction| - 1]), fraction[|fraction| - 1] - 48);
  }

  /** A bare numeral is the printed number. */
  lemma BareNumeral(n: Numeral, rest: Text)
    requires NumeralOk(n) && NumeralBare(n)
    ensures NormalNumber(NumeralValue(n)) && SpellNumeral(n, rest) == ShowNumber(NumeralValue(n)) + rest
  {
    if n.fraction == [] {
      BareWhole(n, rest);
    } else {
      BareFractionText(n, rest);
    }
  }

  /** Every normal number has a bare numeral. */
  lemma NumeralFor(x: Number) returns (n: Numeral)
    requires NormalNumber(x)
    ensures NumeralOk(n) && NumeralBare(n) && NumeralValue(n) == x
  {
    match x {
      case Whole(k) =>
        var m := if k < 0 then -k else k;
        n := Numeral(k < 0, Digits(m), [], NoPower);
        DecimalsAreDigits(Digits(m));
        DigitsValueInvertsDigits(m);
        WorthIsValue(Digits(m));
      case Fractional(d) =>
        var places: nat := -d.exponent;
        n := Numeral(d.negative, Digits(Shift(d.coefficient, places)), Pad(d.coefficient, places), NoPower);
        DecimalsAreDigits(n.whole);
        DecimalsAreDigits(n.fraction);
        DecimalsConcat(n.whole, n.fraction);
        SplitDigitsValue(d.coefficient, places);
        WorthIsValue(n.whole + n.fraction);
        LastDigitWorth(n.whole, n.fraction);
    }
  }

  // ---- Strings -----------------------------------------------------------

  lemma BareHexDigit(c: CodePoint)
    requires HexOk(c) && !(65 <= c <= 70)
    ensures HexDigit(HexWorth(c)) == c
  {
  }

  lemma SmallHex(digits: Text)
    requires UnitOk(Hex(digits)) && UnitBare(Hex(digits))
    ensures digits[0] == digits[1] == 48
    ensures UnitCode(Hex(digits)) / 16 == HexWorth(digits[2]) && UnitCode(Hex(digits)) % 16 == HexWorth(digits[3])
  {
    HexNumberIs(digits);
  }

  /** A bare unit is the printer's escape of its character. */
  lemma BareUnit(u: Unit, rest: Text)
    requires UnitOk(u) && UnitBare(u)
    ensures SpellUnit(u, rest) == EscapePoint(UnitCode(u)) + rest
  {
    if u.Hex? {
      var digits := u.digits;
      SmallHex(digits);
      BareHexDigit(digits[2]);
      BareHexDigit(digits[3]);
      assert digits == [48, 48, digits[2], digits[3]];
      assert EscapePoint(UnitCode(u)) == [0x5C, 0x75] + digits;
    }
  }

  lemma BareAlone(units: seq<Unit>)
    requires UnitsOk(units) && UnitsBare(units) && units != []
    ensures |units| >= 2 ==> !PairUp(units[0], units[1])
  {
  }

  /** Bare units are the printer's escape of their text. */
  lemma {:induction false} BareUnits(units: seq<Unit>, rest: Text)
    requires UnitsOk(units) && UnitsBare(units)
    ensures SpellUnits(units, rest) == Escape(UnitsText(units)) + rest
  {
    if units == [] {
      assert [] + rest == rest;
    } else {
      BareAlone(units);
      TextOne(units, rest);
      BareUnits(units[1..], rest);
      BareUnit(units[0], SpellUnits(units[1..], rest));
      EscapeHead(UnitCode(units[0]), UnitsText(units[1..]));
      Associate(EscapePoint(UnitCode(units[0])), Escape(UnitsText(units[1..])), rest);
    }
  }

  lemma EscapeHead(c: CodePoint, s: Text)
    ensures Escape([c] + s) == EscapePoint(c) + Escape(s)
  {
    assert ([c] + s)[1..] == s;
  }

  lemma BareString(units: seq<Unit>, rest: Text)
    requires UnitsOk(units) && UnitsBare(units)
    ensures SpellString(units, rest) == ShowString(UnitsText(units)) + rest
  {
    BareUnits(units, [0x22] + rest);
    Enclose([0x22], Escape(UnitsText(units)), [0x22], rest);
  }

  lemma Enclose(a: Text, b: Text, c: Text, rest: Text)
    ensures a + (b + (c + rest)) == a + b + c + rest
  {
  }

  lemma HexFor(c: CodePoint) returns (u: Unit)
    requires c < 0x20 && c !in {0x08, 0x09, 0x0A, 0x0C, 0x0D}
    ensures UnitOk(u) && UnitBare(u) && UnitCode(u) == c
  {
    u := Hex([48, 48, HexDigit(c / 16), HexDigit(c % 16)]);
    HexNumberIs(u.digits);
  }

  /** Every character has a bare unit. */
  lemma UnitFor(c: CodePoint) returns (u: Unit)
    ensures UnitOk(u) && UnitBare(u) && UnitCode(u) == c
  {
    if c == 0x22 || c == 0x5C {
      u := Short(c);
    } else if c >= 0x20 {
      u := Plain(c);
    } else if c == 8 {
      u := Short(0x62);
    } else if c == 9 {
      u := Short(0x74);
    } else if c == 10 {
      u := Short(0x6E);
    } else if c == 12 {
      u := Short(0x66);
    } else if c == 13 {
      u := Short(0x72);
    } else {
      u := HexFor(c);
    }
  }

  /** Every text has bare units. */
  lemma {:induction false} UnitsFor(s: Text) returns (units: seq<Unit>)
    ensures UnitsOk(units) && UnitsBare(units) && UnitsText(units) == s
  {
    if s == [] {
      units := [];
    } else {
      var u := UnitFor(s[0]);
      var more := UnitsFor(s[1..]);
      units := [u] + more;
      BareAlone(units);
      UnitsTextAlone(u, more);
      SplitFirst(s);
    }
  }

  // ---- Documents ---------------------------------------------------------

  predicate PaddedBare(nfc: Nfc, p: Padded) {
    p.before == [] && p.after == [] && DocOk(p.doc) && DocBare(nfc, p.doc)
  }

  predicate MemberBare(nfc: Nfc, m: Member) {
    && m.before == [] && m.middle == [] && UnitsOk(m.key) && UnitsBare(m.key)
    && nfc(UnitsText(m.key)) == UnitsText(m.key) && PaddedBare(nfc, m.value)
  }

  ghost predicate ItemsBare(nfc: Nfc, items: seq<Padded>, vs: seq<Value>) {
    |vs| == |items| && forall i | 0 <= i < |items| :: PaddedBare(nfc, items[i]) && Means(nfc, items[i].doc, vs[i])
  }

  ghost predicate BareFor(nfc: Nfc, m: Member, f: Field) {
    MemberBare(nfc, m) && UnitsText(m.key) == f.key && Means(nfc, m.value.doc, f.value)
  }

  ghost predicate MembersBare(nfc: Nfc, members: seq<Member>, fields: seq<Field>) {
    |fields| == |members| && forall i | 0 <= i < |members| :: BareFor(nfc, members[i], fields[i])
  }

  /** A bare document of a value is the printed value. */
  lemma {:induction false} BareDoc(nfc: Nfc, d: Doc, v: Value, rest: Text)
    requires DocOk(d) && DocBare(nfc, d) && Means(nfc, d, v)
    ensures Spell(d, rest) == Show(v) + rest
    decreases d, 0
  {
    match d {
      case NullDoc =>
      case BoolDoc(_) =>
      case NumberDoc(n) => BareNumeral(n, rest);
      case StringDoc(units) => BareString(units, rest);
      case ArrayDoc(gap, items) => BareArray(nfc, gap, items, v, rest);
      case ObjectDoc(gap, members) => BareObject(nfc, gap, members, v, rest);
    }
  }

  lemma {:induction false} BareArray(nfc: Nfc, gap: Text, items: seq<Padded>, v: Value, rest: Text)
    requires DocOk(ArrayDoc(gap, items)) && DocBare(nfc, ArrayDoc(gap, items)) && Means(nfc, ArrayDoc(gap, items), v)
    ensures Spell(ArrayDoc(gap, items), rest) == Show(v) + rest
    decreases items, 2
  {
    Enclose([91], ShowItems(v.items), [93], rest);
    if items == [] {
      assert ShowItems(v.items) == [];
    } else {
      BareItems(nfc, items, v.items, [93] + rest);
    }
  }

  lemma {:induction false} BareItems(nfc: Nfc, items: seq<Padded>, vs: seq<Value>, rest: Text)
    requires items != [] && ItemsBare(nfc, items, vs)
    ensures SpellItems(items, rest) == ShowItems(vs) + rest
    decreases items, 1
  {
    var p := items[0];
    assert PaddedBare(nfc, p);
    if |items| == 1 {
      BarePadded(p, rest);
      BareDoc(nfc, p.doc, vs[0], rest);
    } else {
      var more := [44] + SpellItems(items[1..], rest);
      BarePadded(p, more);
      BareItems(nfc, items[1..], vs[1..], rest);
      BareDoc(nfc, p.doc, vs[0], more);
      Enclose(Show(vs[0]), [44], ShowItems(vs[1..]), rest);
    }
  }

  lemma BarePadded(p: Padded, rest: Text)
    requires p.before == [] && p.after == []
    ensures SpellPadded(p, rest) == Spell(p.doc, rest)
  {
    assert [] + rest == rest && [] + Spell(p.doc, rest) == Spell(p.doc, rest);
  }

  lemma {:induction false} BareObject(nfc: Nfc, gap: Text, members: seq<Member>, v: Value, rest: Text)
    requires DocOk(ObjectDoc(gap, members)) && DocBare(nfc, ObjectDoc(gap, members))
    requires Means(nfc, ObjectDoc(gap, members), v)
    ensures Spell(ObjectDoc(gap, members), rest) == Show(v) + rest
    decreases members, 2
  {
    Enclose([123], ShowFields(v.fields), [125], rest);
    if members == [] {
      assert ShowFields(v.fields) == [];
    } else {
      forall i | 0 <= i < |members| ensures BareFor(nfc, members[i], v.fields[i]) {
        assert MemberBare(nfc, members[i]);
      }
      BareMembers(nfc, members, v.fields, [125] + rest);
    }
  }

  lemma {:induction false} BareMember(nfc: Nfc, m: Member, f: Field, rest: Text)
    requires BareFor(nfc, m, f)
    ensures SpellMember(m, rest) == ShowField(f) + rest
    decreases m, 0
  {
    var value := [58] + SpellPadded(m.value, rest);
    assert [] + value == value && [] + SpellString(m.key, value) == SpellString(m.key, value);
    BareString(m.key, value);
    BarePadded(m.value, rest);
    BareDoc(nfc, m.value.doc, f.value, rest);
    Enclose(ShowString(f.key), [58], Show(f.value), rest);
  }

  lemma {:induction false} BareMembers(nfc: Nfc, members: seq<Member>, fields: seq<Field>, rest: Text)
    requires members != [] && MembersBare(nfc, members, fields)
    ensures SpellMembers(members, rest) == ShowFields(fields) + rest
    decreases members, 1
  {
    if |members| == 1 {
      BareMember(nfc, members[0], fields[0], rest);
    } else {
      var more := [44] + SpellMembers(members[1..], rest);
      BareMembers(nfc, members[1..], fields[1..], rest);
      BareMember(nfc, members[0], fields[0], more);
      Enclose(ShowField(fields[0]), [44], ShowFields(fields[1..]), rest);
    }
  }

  /** Every normal value has a bare document. */
  lemma {:induction false} DocFor(nfc: Nfc, v: Value) returns (d: Doc)
    requires Normal(nfc, v)
    ensures DocOk(d) && DocBare(nfc, d) && Means(nfc, d, v)
    decreases v, 0
  {
    match v {
      case Null => d := NullDoc;
      case Bool(b) => d := BoolDoc(b);
      case Num(x) =>
        var n := NumeralFor(x);
        d := NumberDoc(n);
      case Str(s) =>
        var units := UnitsFor(s);
        d := StringDoc(units);
      case Arr(items) =>
        var docs := ItemsFor(nfc, items);
        d := ArrayDoc([], docs);
      case Obj(fields) =>
        var members := MembersFor(nfc, fields);
        d := ObjectDoc([], members);
        SortedDistinct(fields);
    }
  }

  lemma SortedDistinct(fs: seq<Field>)
    requires SortedKeys(fs)
    ensures forall i, j | 0 <= i < j < |fs| :: fs[i].key != fs[j].key
  {
    forall i, j | 0 <= i < j < |fs| ensures fs[i].key != fs[j].key {
      assert KeyLess(fs[i].key, fs[j].key);
      LessTotal(Encode(fs[i].key), Encode(fs[j].key));
    }
  }

  lemma {:induction false} ItemsFor(nfc: Nfc, vs: seq<Value>) returns (items: seq<Padded>)
    requires forall i | 0 <= i < |vs| :: Normal(nfc, vs[i])
    ensures ItemsBare(nfc, items, vs)
    decreases vs, 1
  {
    if vs == [] {
      items := [];
    } else {
      var d := DocFor(nfc, vs[0]);
      var more := ItemsFor(nfc, vs[1..]);
      items := [Padded([], d, [])] + more;
    }
  }

  lemma {:induction false} MembersFor(nfc: Nfc, fields: seq<Field>) returns (members: seq<Member>)
    requires NormalFields(nfc, fields)
    ensures MembersBare(nfc, members, fields)
    decreases fields, 1
  {
    if fields == [] {
      members := [];
    } else {
      var units := UnitsFor(fields[0].key);
      var d := DocFor(nfc, fields[0].value);
      var more := MembersFor(nfc, fields[1..]);
      var m := Member([], units, [], Padded([], d, []));
      MoreBare(nfc, m, fields[0], more, fields[1..]);
      SplitFirst(fields);
      members := [m] + more;
    }
  }

  lemma {:induction false} MoreBare(nfc: Nfc, m: Member, f: Field, more: seq<Member>, fields: seq<Field>)
    requires BareFor(nfc, m, f) && MembersBare(nfc, more, fields)
    ensures MembersBare(nfc, [m] + more, [f] + fields)
  {
  }

  // ---- The canonical printer ---------------------------------------------

  /** The text spells the value with nothing to spare. */
  ghost predicate SpellsBare(nfc: Nfc, t: Text, v: Value) {
    exists d :: DocOk(d) && DocBare(nfc, d) && Spell(d, []) == t && Means(nfc, d, v)
  }

  lemma ShownIffBare(nfc: Nfc, v: Value, t: Text)
    requires Normal(nfc, v)
    ensures t == Show(v) <==> SpellsBare(nfc, t, v)
  {
    assert Show(v) + [] == Show(v);
    var d := DocFor(nfc, v);
    BareDoc(nfc, d, v, []);
    if SpellsBare(nfc, t, v) {
      var e :| DocOk(e) && DocBare(nfc, e) && Spell(e, []) == t && Means(nfc, e, v);
      BareDoc(nfc, e, v, []);
    }
  }

  /** The canonical text is the bare spelling of the normal form: there is exactly one. */
  lemma CanonicalIffBare(nfc: Nfc, v: Value, t: Text)
    ensures CanonicalText(nfc, v) == Some(t) <==>
              Normalize(nfc, v).Some? && SpellsBare(nfc, t, Normalize(nfc, v).value)
  {
    if Normalize(nfc, v).Some? {
      NormalizeNormal(nfc, v);
      ShownIffBare(nfc, Normalize(nfc, v).value, t);
    }
  }
}
