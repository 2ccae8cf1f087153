/** The printer and the object collector in the loop form the program runs, proved against the normal form. */
module JsonPrinter {
  import opened Utf8
  import opened JsonNumbers
  import opened JsonStrings
  import opened CanonicalJson
  import opened JsonLaws

  function Join(tokens: seq<Text>): Text {
    if tokens == [] then []
    else if |tokens| == 1 then tokens[0]
    else tokens[0] + [COMMA] + Join(tokens[1..])
  }

  lemma {:induction false} JoinShowsItems(tokens: seq<Text>, items: seq<Value>)
    requires |tokens| == |items| && forall i | 0 <= i < |items| :: tokens[i] == Show(items[i])
    ensures Join(tokens) == ShowItems(items)
  {
    if |items| > 1 {
      JoinShowsItems(tokens[1..], items[1..]);
    }
  }

  lemma {:induction false} JoinShowsFields(tokens: seq<Text>, fields: seq<Field>)
    requires |tokens| == |fields| && forall i | 0 <= i < |fields| :: tokens[i] == ShowField(fields[i])
    ensures Join(tokens) == ShowFields(fields)
  {
    if |fields| > 1 {
      JoinShowsFields(tokens[1..], fields[1..]);
    }
  }

  // ---- Sorting looks at keys only ----------------------------------------

  function MapValues(h: Value -> Value, fs: seq<Field>): (r: seq<Field>)
    ensures |r| == |fs|
  {
    seq(|fs|, i requires 0 <= i < |fs| => Field(fs[i].key, h(fs[i].value)))
  }

  lemma {:induction false} InsertCommutes(h: Value -> Value, f: Field, fs: seq<Field>)
    ensures MapValues(h, InsertField(f, fs)) == InsertField(Field(f.key, h(f.value)), MapValues(h, fs))
  {
    if fs != [] && KeyLess(fs[0].key, f.key) {
      InsertCommutes(h, f, fs[1..]);
      assert MapValues(h, fs)[1..] == MapValues(h, fs[1..]);
    }
  }

  lemma {:induction false} SortCommutes(h: Value -> Value, fs: seq<Field>)
    ensures MapValues(h, SortFields(fs)) == SortFields(MapValues(h, fs))
  {
    if fs != [] {
      InsertCommutes(h, fs[0], SortFields(fs[1..]));
      SortCommutes(h, fs[1..]);
      assert MapValues(h, fs)[1..] == MapValues(h, fs[1..]);
    }
  }

  function NormalOr(nfc: Nfc, v: Value): Value {
    match Normalize(nfc, v)
    case None => Unsupported
    case Some(n) => n
  }

  function NormalKeys(nfc: Nfc, fields: seq<Field>): (r: seq<Field>)
    ensures |r| == |fields|
  {
    seq(|fields|, i requires 0 <= i < |fields| => Field(nfc(fields[i].key), fields[i].value))
  }

  predicate ValuesPrint(nfc: Nfc, fields: seq<Field>) {
    forall i | 0 <= i < |fields| :: Normalize(nfc, fields[i].value).Some?
  }

  function NormalValues(nfc: Nfc, fields: seq<Field>): seq<Field> {
    MapValues(v => NormalOr(nfc, v), fields)
  }

  lemma FieldNormalizes(nfc: Nfc, fields: seq<Field>, i: nat)
    requires EncodableKeys(NormalKeys(nfc, fields)) && i < |fields|
    ensures NormalizeField(nfc, fields[i])
         == if Normalize(nfc, fields[i].value).Some?
            then Some(Field(nfc(fields[i].key), NormalOr(nfc, fields[i].value))) else None
  {
    assert Encodable(NormalKeys(nfc, fields)[i].key);
  }

  lemma NormalizeUnsorted(nfc: Nfc, fields: seq<Field>)
    requires EncodableKeys(NormalKeys(nfc, fields))
    ensures NormalizeFields(nfc, fields)
         == if ValuesPrint(nfc, NormalKeys(nfc, fields)) then Some(NormalValues(nfc, NormalKeys(nfc, fields))) else None
  {
    var raw := NormalKeys(nfc, fields);
    NormalizeFieldsAt(nfc, fields);
    forall i | 0 <= i < |fields|
      ensures NormalizeField(nfc, fields[i])
           == if Normalize(nfc, raw[i].value).Some? then Some(NormalValues(nfc, raw)[i]) else None
    {
      FieldNormalizes(nfc, fields, i);
    }
    if ValuesPrint(nfc, raw) {
      assert NormalizeFields(nfc, fields).value == NormalValues(nfc, raw);
    }
  }

  lemma SortedPrints(nfc: Nfc, raw: seq<Field>)
    ensures ValuesPrint(nfc, SortFields(raw)) == ValuesPrint(nfc, raw)
  {
    var ordered := SortFields(raw);
    forall f ensures f in ordered <==> f in raw {
    }
    if !ValuesPrint(nfc, raw) {
      var i :| 0 <= i < |raw| && Normalize(nfc, raw[i].value).None?;
      assert raw[i] in ordered;
      var j :| 0 <= j < |ordered| && ordered[j] == raw[i];
    } else {
      forall i | 0 <= i < |ordered| ensures Normalize(nfc, ordered[i].value).Some? {
        assert ordered[i] in raw;
        var j :| 0 <= j < |raw| && raw[j] == ordered[i];
      }
    }
  }

  lemma DistinctValuesKeys(nfc: Nfc, raw: seq<Field>)
    ensures DistinctKeys(NormalValues(nfc, raw)) == DistinctKeys(raw)
  {
    var values := NormalValues(nfc, raw);
    forall i, j | 0 <= i < j < |raw| ensures values[i].key == raw[i].key && values[j].key == raw[j].key {
    }
  }

  /** The two orders of work agree: sort raw entries then normalise values, or normalise then sort. */
  lemma NormalizeSorted(nfc: Nfc, fields: seq<Field>)
    requires EncodableKeys(NormalKeys(nfc, fields)) && DistinctKeys(NormalKeys(nfc, fields))
    ensures var ordered := SortFields(NormalKeys(nfc, fields));
            Normalize(nfc, Obj(fields))
            == if ValuesPrint(nfc, ordered) then Some(Obj(NormalValues(nfc, ordered))) else None
  {
    var raw := NormalKeys(nfc, fields);
    NormalizeUnsorted(nfc, fields);
    SortedPrints(nfc, raw);
    SortCommutes(v => NormalOr(nfc, v), raw);
    DistinctValuesKeys(nfc, raw);
  }

  lemma RejectedKeys(nfc: Nfc, fields: seq<Field>)
    requires !EncodableKeys(NormalKeys(nfc, fields)) || !DistinctKeys(NormalKeys(nfc, fields))
    ensures Normalize(nfc, Obj(fields)) == None
  {
    NormalizeFieldsAt(nfc, fields);
    if NormalizeFields(nfc, fields).Some? {
      var ns := NormalizeFields(nfc, fields).value;
      forall i | 0 <= i < |fields| ensures ns[i].key == NormalKeys(nfc, fields)[i].key && Encodable(ns[i].key) {
        assert NormalizeField(nfc, fields[i]).Some?;
      }
    }
  }

  // ---- The loops ---------------------------------------------------------

  /** Collect the pairs of a parsed object. */
  method CollectPairs(nfc: Nfc, pairs: seq<Field>) returns (result: Option<seq<Field>>)
    ensures result == PairsToDict(nfc, pairs)
  {
    result := RenameKeys(nfc, pairs);
    assert NormalKeys(nfc, pairs)
        == seq(|pairs|, i requires 0 <= i < |pairs| => Field(nfc(pairs[i].key), pairs[i].value));
  }

  /** Give every entry its NFC key, refusing the first key that was already there. */
  method RenameKeys(nfc: Nfc, fields: seq<Field>) returns (result: Option<seq<Field>>)
    ensures result == if DistinctKeys(NormalKeys(nfc, fields)) then Some(NormalKeys(nfc, fields)) else None
  {
    var normalized: seq<Field> := [];
    for i := 0 to |fields|
      invariant normalized == NormalKeys(nfc, fields)[..i]
      invariant DistinctKeys(normalized)
    {
      var key := nfc(fields[i].key);
      if HasKey(normalized, key) {
        assert NormalKeys(nfc, fields)[i].key == key;
        return None;
      }
      normalized := normalized + [Field(key, fields[i].value)];
    }
    assert NormalKeys(nfc, fields)[..|fields|] == NormalKeys(nfc, fields);
    return Some(normalized);
  }

  /** Print a value; none stands for the exception the program raises. */
  method CanonicalToken(nfc: Nfc, v: Value) returns (token: Option<Text>)
    ensures token == CanonicalText(nfc, v)
    decreases v, 0
  {
    match v {
      case Null => token := Some(NULL_TOKEN);
      case Bool(b) => token := Some(if b then TRUE_TOKEN else FALSE_TOKEN);
      case Num(x) =>
        NumberTokenShowsNormalForm(x);
        token := NumberToken(x);
      case Str(s) => token := Some(ShowString(nfc(s)));
      case Arr(items) => token := ArrayToken(nfc, items);
      case Obj(fields) => token := ObjectToken(nfc, fields);
      case Unsupported => token := None;
    }
  }

  method ArrayToken(nfc: Nfc, items: seq<Value>) returns (token: Option<Text>)
    ensures token == CanonicalText(nfc, Arr(items))
    decreases items, 1
  {
    NormalizeAllAt(nfc, items);
    var tokens: seq<Text> := [];
    for i := 0 to |items|
      invariant |tokens| == i
      invariant forall k | 0 <= k < i :: CanonicalText(nfc, items[k]) == Some(tokens[k])
    {
      var t := CanonicalToken(nfc, items[i]);
      if t.None? {
        return None;
      }
      tokens := tokens + [t.value];
    }
    JoinShowsItems(tokens, NormalizeAll(nfc, items).value);
    return Some([OPEN_ARRAY] + Join(tokens) + [CLOSE_ARRAY]);
  }

  method ObjectToken(nfc: Nfc, fields: seq<Field>) returns (token: Option<Text>)
    ensures token == CanonicalText(nfc, Obj(fields))
    decreases fields, 2
  {
    var normalized := RenameKeys(nfc, fields);
    if normalized.None? || !EncodableKeys(normalized.value) {
      RejectedKeys(nfc, fields);
      return None;
    }
    var ordered := SortFields(normalized.value);
    SortedHolds(nfc, fields);
    NormalizeSorted(nfc, fields);
    var tokens := FieldTokens(nfc, ordered, fields);
    if tokens.None? {
      return None;
    }
    return Some([OPEN_OBJECT] + Join(tokens.value) + [CLOSE_OBJECT]);
  }

  predicate Holds(fields: seq<Field>, v: Value) {
    exists i | 0 <= i < |fields| :: fields[i].value == v
  }

  lemma SortedHolds(nfc: Nfc, fields: seq<Field>)
    ensures forall f | f in SortFields(NormalKeys(nfc, fields)) :: Holds(fields, f.value)
  {
    var raw := NormalKeys(nfc, fields);
    forall f | f in SortFields(raw) ensures Holds(fields, f.value) {
      var i :| 0 <= i < |raw| && raw[i] == f;
      assert fields[i].value == f.value;
    }
  }

  lemma Holder(fields: seq<Field>, ordered: seq<Field>, i: nat) returns (j: nat)
    requires i < |ordered| && forall f | f in ordered :: Holds(fields, f.value)
    ensures j < |fields| && fields[j].value == ordered[i].value
  {
    assert ordered[i] in ordered;
    assert Holds(fields, ordered[i].value);
    j :| 0 <= j < |fields| && fields[j].value == ordered[i].value;
  }

  method FieldTokens(nfc: Nfc, ordered: seq<Field>, ghost fields: seq<Field>) returns (tokens: Option<seq<Text>>)
    requires forall f | f in ordered :: Holds(fields, f.value)
    ensures tokens.Some? <==> ValuesPrint(nfc, ordered)
    ensures tokens.Some? ==> Join(tokens.value) == ShowFields(NormalValues(nfc, ordered))
    decreases fields, 1
  {
    var items: seq<Text> := [];
    for i := 0 to |ordered|
      invariant |items| == i
      invariant forall k | 0 <= k < i ::
                  && Normalize(nfc, ordered[k].value).Some?
                  && items[k] == ShowField(NormalValues(nfc, ordered)[k])
    {
      ghost var j := Holder(fields, ordered, i);
      var t := CanonicalToken(nfc, ordered[i].value);
      if t.None? {
        return None;
      }
      items := items + [ShowString(ordered[i].key) + [COLON] + t.value];
    }
    JoinShowsFields(items, NormalValues(nfc, ordered));
    return Some(items);
  }
}
