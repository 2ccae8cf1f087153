/** Printing and parsing undo each other, and what follows for canonical text. */
module JsonLaws {
  import opened Utf8
  import opened JsonNumbers
  import opened JsonStrings
  import opened CanonicalJson
  import opened JsonGrammar
  import opened JsonCanonical

  // ---- The parser reads back what the printer shows ----------------------

  /** Reading the printed number gives the number, and leaves what follows. */
  lemma ParseInvertsShowNumber(x: Number, rest: Text)
    requires NormalNumber(x) && EndsNumber(rest)
    ensures ParseNumber(ShowNumber(x) + rest) == Some((x, rest))
  {
    var n := NumeralFor(x);
    BareNumeral(n, rest);
    ReadNumeral(n, rest);
  }

  /** Reading an escaped string gives the string back, whatever its code points. */
  lemma ParseInvertsEscape(s: Text, rest: Text)
    ensures ParseString(Escape(s) + ([QUOTE] + rest)) == Some((s, rest))
  {
    var units := UnitsFor(s);
    BareUnits(units, [QUOTE] + rest);
    ReadUnits(units, rest);
  }

  /** Reading the printed value gives the value, at any depth and whatever follows. */
  lemma ParseInvertsShow(nfc: Nfc, v: Value, rest: Text)
    requires Normal(nfc, v) && EndsNumber(rest)
    ensures ParseValue(nfc, Show(v) + rest) == Some((v, rest))
  {
    var d := DocFor(nfc, v);
    BareDoc(nfc, d, v, rest);
    ReadDoc(nfc, d, v, rest);
  }

  lemma LoadsShown(nfc: Nfc, v: Value)
    requires Normal(nfc, v)
    ensures StrictLoads(nfc, Show(v)) == Some(v)
  {
    var d := DocFor(nfc, v);
    var p := Padded([], d, []);
    BareDoc(nfc, d, v, []);
    BarePadded(p, []);
    assert Show(v) + [] == Show(v);
    LoadsIffSpells(nfc, Show(v), v);
  }

  // ---- Laws of canonical text --------------------------------------------

  /** Loading canonical text gives the value's normal form, and printing that gives the same text. */
  lemma LoadsInvertsCanonicalText(nfc: Nfc, v: Value)
    requires CanonicalText(nfc, v).Some?
    ensures StrictLoads(nfc, CanonicalText(nfc, v).value) == Normalize(nfc, v)
    ensures CanonicalText(nfc, Normalize(nfc, v).value) == CanonicalText(nfc, v)
  {
    NormalizeNormal(nfc, v);
    NormalizeFixes(nfc, Normalize(nfc, v).value);
    LoadsShown(nfc, Normalize(nfc, v).value);
  }

  /** The same round trip through UTF-8 bytes. */
  lemma LoadsInvertsCanonicalBytes(nfc: Nfc, v: Value)
    requires CanonicalBytes(nfc, v).Some?
    ensures StrictLoadsBytes(nfc, CanonicalBytes(nfc, v).value) == Normalize(nfc, v)
  {
    LoadsInvertsCanonicalText(nfc, v);
    DecodeInvertsEncode(CanonicalText(nfc, v).value);
  }

  /** Two printable values have the same bytes exactly when they have the same normal form. */
  lemma CanonicalBytesInjective(nfc: Nfc, v: Value, w: Value)
    requires CanonicalBytes(nfc, v).Some? && CanonicalBytes(nfc, w).Some?
    ensures CanonicalBytes(nfc, v) == CanonicalBytes(nfc, w) <==> Normalize(nfc, v) == Normalize(nfc, w)
  {
    LoadsInvertsCanonicalBytes(nfc, v);
    LoadsInvertsCanonicalBytes(nfc, w);
  }

  /** The registry's acceptance test: the text loads, and prints back as itself. */
  predicate AcceptedAsCanonical(nfc: Nfc, t: Text) {
    match StrictLoads(nfc, t)
    case None => false
    case Some(v) => CanonicalBytes(nfc, v) == Some(Encode(t)) && Encodable(t)
  }

  /** The test accepts exactly the texts the printer can produce. */
  lemma AcceptedIffPrinted(nfc: Nfc, t: Text)
    ensures AcceptedAsCanonical(nfc, t) <==>
            exists v :: CanonicalBytes(nfc, v).Some? && CanonicalText(nfc, v) == Some(t)
  {
    if AcceptedAsCanonical(nfc, t) {
      var v := StrictLoads(nfc, t).value;
      EncodeInjective(CanonicalText(nfc, v).value, t);
      assert CanonicalText(nfc, v) == Some(t);
    }
    if v :| CanonicalBytes(nfc, v).Some? && CanonicalText(nfc, v) == Some(t) {
      LoadsInvertsCanonicalText(nfc, v);
    }
  }

  // ---- Order of insertion ------------------------------------------------

  /** The same value, with the entries of any dictionary in it inserted in some other order. */
  predicate SameUpToOrder(v: Value, w: Value) {
    match (v, w)
    case (Arr(a), Arr(b)) => |a| == |b| && forall i | 0 <= i < |a| :: SameUpToOrder(a[i], b[i])
    case (Obj(a), Obj(b)) =>
      && (forall i | 0 <= i < |a| :: HasEntry(a[i], b))
      && (forall j | 0 <= j < |b| :: IsEntryOf(a, b[j]))
    case _ => v == w
  }

  predicate HasEntry(f: Field, b: seq<Field>) {
    exists j | 0 <= j < |b| :: SameEntry(f, b[j])
  }

  predicate IsEntryOf(a: seq<Field>, g: Field) {
    exists i | 0 <= i < |a| :: SameEntry(a[i], g)
  }

  predicate SameEntry(f: Field, g: Field) {
    f.key == g.key && SameUpToOrder(f.value, g.value)
  }

  /** Every object in `v` is a dictionary: no key twice. */
  predicate Dictionaries(v: Value) {
    match v
    case Arr(items) => forall i | 0 <= i < |items| :: Dictionaries(items[i])
    case Obj(fields) => DistinctKeys(fields) && forall i | 0 <= i < |fields| :: Dictionaries(fields[i].value)
    case _ => true
  }

  function NormalizeField(nfc: Nfc, f: Field): Option<Field> {
    if !Encodable(nfc(f.key)) then None
    else
      match Normalize(nfc, f.value)
      case None => None
      case Some(n) => Some(Field(nfc(f.key), n))
  }

  lemma {:induction false} NormalizeFieldsAt(nfc: Nfc, fields: seq<Field>)
    ensures NormalizeFields(nfc, fields).Some? <==> forall i | 0 <= i < |fields| :: NormalizeField(nfc, fields[i]).Some?
    ensures NormalizeFields(nfc, fields).Some? ==>
              forall i | 0 <= i < |fields| ::
                NormalizeField(nfc, fields[i]) == Some(NormalizeFields(nfc, fields).value[i])
  {
    if fields != [] {
      NormalizeFieldsAt(nfc, fields[1..]);
      assert NormalizeField(nfc, fields[0]).Some? && NormalizeFields(nfc, fields[1..]).Some? <==>
             NormalizeFields(nfc, fields).Some?;
      if forall i | 0 <= i < |fields| :: NormalizeField(nfc, fields[i]).Some? {
        forall i | 0 <= i < |fields[1..]| ensures NormalizeField(nfc, fields[1..][i]).Some? {
          assert NormalizeField(nfc, fields[i + 1]).Some?;
        }
      }
    }
  }

  lemma {:induction false} NormalizeAllAt(nfc: Nfc, items: seq<Value>)
    ensures NormalizeAll(nfc, items).Some? <==> forall i | 0 <= i < |items| :: Normalize(nfc, items[i]).Some?
    ensures NormalizeAll(nfc, items).Some? ==>
              forall i | 0 <= i < |items| :: Normalize(nfc, items[i]) == Some(NormalizeAll(nfc, items).value[i])
  {
    if items != [] {
      NormalizeAllAt(nfc, items[1..]);
      if forall i | 0 <= i < |items| :: Normalize(nfc, items[i]).Some? {
        forall i | 0 <= i < |items[1..]| ensures Normalize(nfc, items[1..][i]).Some? {
          assert Normalize(nfc, items[i + 1]).Some?;
        }
      }
    }
  }

  predicate Agree(nfc: Nfc, f: Field, g: Field) {
    f.key == g.key && NormalizeField(nfc, f) == NormalizeField(nfc, g)
  }

  predicate MatchedIn(nfc: Nfc, f: Field, b: seq<Field>) {
    exists j | 0 <= j < |b| :: Agree(nfc, f, b[j])
  }

  predicate Matched(nfc: Nfc, a: seq<Field>, b: seq<Field>) {
    forall i | 0 <= i < |a| :: MatchedIn(nfc, a[i], b)
  }

  lemma MatchedNormalForms(nfc: Nfc, a: seq<Field>, b: seq<Field>)
    requires Matched(nfc, a, b) && DistinctKeys(a) && NormalizeFields(nfc, b).Some?
    ensures NormalizeFields(nfc, a).Some?
    ensures forall f :: f in NormalizeFields(nfc, a).value ==> f in NormalizeFields(nfc, b).value
    ensures DistinctKeys(NormalizeFields(nfc, b).value) ==> DistinctKeys(NormalizeFields(nfc, a).value)
  {
    NormalizeFieldsAt(nfc, a);
    NormalizeFieldsAt(nfc, b);
    var m, n := NormalizeFields(nfc, a).value, NormalizeFields(nfc, b).value;
    forall i | 0 <= i < |m| ensures m[i] in n {
      var j :| 0 <= j < |b| && Agree(nfc, a[i], b[j]);
      assert n[j] == m[i];
    }
    if DistinctKeys(n) {
      forall i, k | 0 <= i < k < |m| ensures m[i].key != m[k].key {
        var j :| 0 <= j < |b| && Agree(nfc, a[i], b[j]);
        var l :| 0 <= l < |b| && Agree(nfc, a[k], b[l]);
        assert a[i].key != a[k].key;
        assert n[j] == m[i] && n[l] == m[k];
      }
    }
  }

  lemma {:induction false} MatchedObjects(nfc: Nfc, a: seq<Field>, b: seq<Field>)
    requires Matched(nfc, a, b) && Matched(nfc, b, a) && DistinctKeys(a) && DistinctKeys(b)
    ensures Normalize(nfc, Obj(a)) == Normalize(nfc, Obj(b))
  {
    if NormalizeFields(nfc, b).Some? {
      MatchedNormalForms(nfc, a, b);
    }
    if NormalizeFields(nfc, a).Some? {
      MatchedNormalForms(nfc, b, a);
      var m, n := NormalizeFields(nfc, a).value, NormalizeFields(nfc, b).value;
      if DistinctKeys(m) {
        NormalizeFieldsNormal(nfc, a);
        NormalizeFieldsNormal(nfc, b);
        SortSorted(m);
        SortSorted(n);
        SortedUnique(SortFields(m), SortFields(n));
      }
    }
  }

  lemma EntryMatches(nfc: Nfc, f: Field, b: seq<Field>)
    requires HasEntry(f, b) && forall j | 0 <= j < |b| && SameEntry(f, b[j]) :: Agree(nfc, f, b[j])
    ensures MatchedIn(nfc, f, b)
  {
  }

  lemma EntryMatchesBack(nfc: Nfc, a: seq<Field>, g: Field)
    requires IsEntryOf(a, g) && forall i | 0 <= i < |a| && SameEntry(a[i], g) :: Agree(nfc, g, a[i])
    ensures MatchedIn(nfc, g, a)
  {
  }

  lemma SameItems(nfc: Nfc, a: seq<Value>, b: seq<Value>)
    requires |a| == |b| && forall i | 0 <= i < |a| :: Normalize(nfc, a[i]) == Normalize(nfc, b[i])
    ensures NormalizeAll(nfc, a) == NormalizeAll(nfc, b)
  {
    NormalizeAllAt(nfc, a);
    NormalizeAllAt(nfc, b);
    if NormalizeAll(nfc, a).Some? && NormalizeAll(nfc, b).Some? {
      assert NormalizeAll(nfc, a).value == NormalizeAll(nfc, b).value;
    }
  }

  /** Insertion order never reaches the normal form, and so neither the text nor a hash of it. */
  lemma {:induction false} InsertionOrderIrrelevant(nfc: Nfc, v: Value, w: Value)
    requires SameUpToOrder(v, w) && Dictionaries(v) && Dictionaries(w)
    ensures Normalize(nfc, v) == Normalize(nfc, w)
    ensures CanonicalBytes(nfc, v) == CanonicalBytes(nfc, w)
    decreases v, 0
  {
    if v.Arr? && w.Arr? {
      OrderIrrelevantInItems(nfc, v.items, w.items);
    } else if v.Obj? && w.Obj? {
      OrderIrrelevantInFields(nfc, v.fields, w.fields);
    }
  }

  lemma {:induction false} OrderIrrelevantInItems(nfc: Nfc, a: seq<Value>, b: seq<Value>)
    requires |a| == |b|
    requires forall i | 0 <= i < |a| :: SameUpToOrder(a[i], b[i]) && Dictionaries(a[i]) && Dictionaries(b[i])
    ensures NormalizeAll(nfc, a) == NormalizeAll(nfc, b)
    decreases a, 1
  {
    forall i | 0 <= i < |a| ensures Normalize(nfc, a[i]) == Normalize(nfc, b[i]) {
      InsertionOrderIrrelevant(nfc, a[i], b[i]);
    }
    SameItems(nfc, a, b);
  }

  lemma {:induction false} OrderIrrelevantInFields(nfc: Nfc, a: seq<Field>, b: seq<Field>)
    requires SameUpToOrder(Obj(a), Obj(b)) && Dictionaries(Obj(a)) && Dictionaries(Obj(b))
    ensures Normalize(nfc, Obj(a)) == Normalize(nfc, Obj(b))
    decreases a, 1
  {
    forall i, j | 0 <= i < |a| && 0 <= j < |b| && SameEntry(a[i], b[j])
      ensures Agree(nfc, a[i], b[j]) && Agree(nfc, b[j], a[i])
    {
      InsertionOrderIrrelevant(nfc, a[i].value, b[j].value);
    }
    forall i | 0 <= i < |a| ensures MatchedIn(nfc, a[i], b) {
      EntryMatches(nfc, a[i], b);
    }
    forall j | 0 <= j < |b| ensures MatchedIn(nfc, b[j], a) {
      EntryMatchesBack(nfc, a, b[j]);
    }
    MatchedObjects(nfc, a, b);
  }

  // ---- What loading guarantees -------------------------------------------

  /** Objects as the loader leaves them: every key NFC, and no key twice, at any depth. */
  predicate Collected(nfc: Nfc, v: Value) {
    match v
    case Arr(items) => forall i | 0 <= i < |items| :: Collected(nfc, items[i])
    case Obj(fields) =>
      && DistinctKeys(fields)
      && forall i | 0 <= i < |fields| :: nfc(fields[i].key) == fields[i].key && Collected(nfc, fields[i].value)
    case Num(x) => NormalizeNumber(x).Some?
    case Unsupported => false
    case _ => true
  }

  predicate KeysEncodable(v: Value) {
    match v
    case Arr(items) => forall i | 0 <= i < |items| :: KeysEncodable(items[i])
    case Obj(fields) => forall i | 0 <= i < |fields| :: Encodable(fields[i].key) && KeysEncodable(fields[i].value)
    case _ => true
  }

  lemma {:induction false} ParsedCollected(nfc: Nfc, s: Text)
    requires ParseValue(nfc, s).Some?
    ensures Collected(nfc, ParseValue(nfc, s).value.0)
    decreases |s|, 0
  {
    if s[0] == OPEN_OBJECT {
      var inner := SkipSpace(s[1..]);
      if inner == [] || inner[0] != CLOSE_OBJECT {
        ParsedFieldsCollected(nfc, inner);
      }
    } else if s[0] == OPEN_ARRAY {
      var inner := SkipSpace(s[1..]);
      if inner == [] || inner[0] != CLOSE_ARRAY {
        ParsedItemsCollected(nfc, inner);
      }
    }
  }

  lemma {:induction false} ParsedItemsCollected(nfc: Nfc, s: Text)
    requires ParseItems(nfc, s).Some?
    ensures Collected(nfc, Arr(ParseItems(nfc, s).value.0))
    decreases |s|, 1
  {
    ParsedCollected(nfc, s);
    var rest := SkipSpace(ParseValue(nfc, s).value.1);
    if rest[0] != CLOSE_ARRAY {
      ParsedItemsCollected(nfc, SkipSpace(rest[1..]));
    }
  }

  lemma {:induction false} ParsedFieldsCollected(nfc: Nfc, s: Text)
    requires ParseFields(nfc, s).Some?
    ensures var fields := ParseFields(nfc, s).value.0;
            forall i | 0 <= i < |fields| :: Collected(nfc, fields[i].value)
    decreases |s|, 1
  {
    var after := SkipSpace(ParseString(s[1..]).value.1);
    ParsedCollected(nfc, SkipSpace(after[1..]));
    var rest := SkipSpace(ParseField(nfc, s).value.1);
    if rest[0] != CLOSE_OBJECT {
      ParsedFieldsCollected(nfc, SkipSpace(rest[1..]));
    }
  }

  lemma {:induction false} CollectedPrintable(nfc: Nfc, v: Value)
    requires Collected(nfc, v)
    ensures Normalize(nfc, v).Some? <==> KeysEncodable(v)
  {
    match v {
      case Arr(items) =>
        NormalizeAllAt(nfc, items);
        forall i | 0 <= i < |items| ensures Normalize(nfc, items[i]).Some? <==> KeysEncodable(items[i]) {
          CollectedPrintable(nfc, items[i]);
        }
      case Obj(fields) =>
        NormalizeFieldsAt(nfc, fields);
        forall i | 0 <= i < |fields|
          ensures NormalizeField(nfc, fields[i]).Some? <==> Encodable(fields[i].key) && KeysEncodable(fields[i].value) {
          CollectedPrintable(nfc, fields[i].value);
        }
        if NormalizeFields(nfc, fields).Some? {
          var ns := NormalizeFields(nfc, fields).value;
          forall i, j | 0 <= i < j < |ns| ensures ns[i].key != ns[j].key {
            assert ns[i].key == fields[i].key && ns[j].key == fields[j].key;
          }
        }
      case _ =>
    }
  }

  /** Whatever loads has unique NFC keys throughout, and prints again unless a key holds a lone surrogate. */
  lemma LoadedIsCollected(nfc: Nfc, t: Text)
    requires StrictLoads(nfc, t).Some?
    ensures Collected(nfc, StrictLoads(nfc, t).value)
    ensures CanonicalText(nfc, StrictLoads(nfc, t).value).Some? <==> KeysEncodable(StrictLoads(nfc, t).value)
  {
    ParsedCollected(nfc, SkipSpace(t));
    CollectedPrintable(nfc, StrictLoads(nfc, t).value);
  }
}
