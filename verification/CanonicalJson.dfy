/** The canonical printer, the strict parser (RFC 8259), and the normal form between them. */
module CanonicalJson {
  import opened Utf8
  import opened JsonNumbers
  import opened JsonStrings

  /** Unicode NFC normalisation; only its idempotence is used. */
  type Nfc = f: Text -> Text | forall s :: f(f(s)) == f(s) witness (s: Text) => s

  /** A value handed to the printer. Models, enumerations and aware datetimes arrive already unfolded to
      objects, their values and their ISO text. `Unsupported` stands for everything the printer refuses by
      type: binary floats, naive datetimes, mappings with a key that is not a string, foreign objects. */
  datatype Value =
    | Null
    | Bool(b: bool)
    | Num(x: Number)
    | Str(s: Text)
    | Arr(items: seq<Value>)
    | Obj(fields: seq<Field>)
    | Unsupported

  datatype Field = Field(key: Text, value: Value)

  // ---- Normal form -------------------------------------------------------

  predicate KeyLess(a: Text, b: Text) {
    Less(Encode(a), Encode(b))
  }

  function InsertField(f: Field, fs: seq<Field>): (r: seq<Field>)
    ensures |r| == |fs| + 1
    ensures forall g :: g in r <==> g == f || g in fs
  {
    if fs == [] || !KeyLess(fs[0].key, f.key) then [f] + fs
    else
      var r := InsertField(f, fs[1..]);
      assert fs == [fs[0]] + fs[1..];
      [fs[0]] + r
  }

  /** The fields in ascending order of their keys' UTF-8 bytes. */
  function SortFields(fs: seq<Field>): (r: seq<Field>)
    ensures |r| == |fs|
    ensures forall g :: g in r <==> g in fs
  {
    if fs == [] then []
    else
      assert fs == [fs[0]] + fs[1..];
      InsertField(fs[0], SortFields(fs[1..]))
  }

  predicate HasKey(fs: seq<Field>, key: Text) {
    exists i | 0 <= i < |fs| :: fs[i].key == key
  }

  predicate DistinctKeys(fs: seq<Field>) {
    forall i, j | 0 <= i < j < |fs| :: fs[i].key != fs[j].key
  }

  /** The value every printable value stands for: NFC strings and keys, one spelling per number, keys in
      order. There is none when the printer refuses the value. */
  function Normalize(nfc: Nfc, v: Value): Option<Value> {
    match v
    case Null => Some(v)
    case Bool(_) => Some(v)
    case Num(x) =>
      (match NormalizeNumber(x)
       case None => None
       case Some(y) => Some(Num(y)))
    case Str(s) => Some(Str(nfc(s)))
    case Arr(items) =>
      (match NormalizeAll(nfc, items)
       case None => None
       case Some(ns) => Some(Arr(ns)))
    case Obj(fields) =>
      (match NormalizeFields(nfc, fields)
       case None => None
       case Some(fs) => if DistinctKeys(fs) then Some(Obj(SortFields(fs))) else None)
    case Unsupported => None
  }

  function NormalizeAll(nfc: Nfc, items: seq<Value>): (r: Option<seq<Value>>)
    ensures r.Some? ==> |r.value| == |items|
  {
    if items == [] then Some([])
    else
      match (Normalize(nfc, items[0]), NormalizeAll(nfc, items[1..]))
      case (Some(n), Some(ns)) => Some([n] + ns)
      case _ => None
  }

  function NormalizeFields(nfc: Nfc, fields: seq<Field>): (r: Option<seq<Field>>)
    ensures r.Some? ==> |r.value| == |fields|
  {
    if fields == [] then Some([])
    else
      var key := nfc(fields[0].key);
      if !Encodable(key) then None
      else
        match (Normalize(nfc, fields[0].value), NormalizeFields(nfc, fields[1..]))
        case (Some(n), Some(ns)) => Some([Field(key, n)] + ns)
        case _ => None
  }

  predicate SortedKeys(fs: seq<Field>) {
    forall i, j | 0 <= i < j < |fs| :: KeyLess(fs[i].key, fs[j].key)
  }

  /** What normal values look like, without normalising. */
  predicate Normal(nfc: Nfc, v: Value) {
    match v
    case Null => true
    case Bool(_) => true
    case Num(x) => NormalNumber(x)
    case Str(s) => nfc(s) == s
    case Arr(items) => forall i | 0 <= i < |items| :: Normal(nfc, items[i])
    case Obj(fields) => NormalFields(nfc, fields) && SortedKeys(fields)
    case Unsupported => false
  }

  predicate NormalFields(nfc: Nfc, fields: seq<Field>) {
    forall i | 0 <= i < |fields| ::
      nfc(fields[i].key) == fields[i].key && Encodable(fields[i].key) && Normal(nfc, fields[i].value)
  }

  // ---- Printing ----------------------------------------------------------

  const NULL_TOKEN: Text := ['n' as int, 'u' as int, 'l' as int, 'l' as int]
  const TRUE_TOKEN: Text := ['t' as int, 'r' as int, 'u' as int, 'e' as int]
  const FALSE_TOKEN: Text := ['f' as int, 'a' as int, 'l' as int, 's' as int, 'e' as int]
  const COMMA: CodePoint := ',' as int
  const COLON: CodePoint := ':' as int
  const OPEN_ARRAY: CodePoint := '[' as int
  const CLOSE_ARRAY: CodePoint := ']' as int
  const OPEN_OBJECT: CodePoint := '{' as int
  const CLOSE_OBJECT: CodePoint := '}' as int

  /** The spelling of a normal value. */
  function Show(v: Value): Text {
    match v
    case Null => NULL_TOKEN
    case Bool(b) => if b then TRUE_TOKEN else FALSE_TOKEN
    case Num(x) => if NormalNumber(x) then ShowNumber(x) else []
    case Str(s) => ShowString(s)
    case Arr(items) => [OPEN_ARRAY] + ShowItems(items) + [CLOSE_ARRAY]
    case Obj(fields) => [OPEN_OBJECT] + ShowFields(fields) + [CLOSE_OBJECT]
    case Unsupported => []
  }

  function ShowItems(items: seq<Value>): Text {
    if items == [] then []
    else if |items| == 1 then Show(items[0])
    else Show(items[0]) + [COMMA] + ShowItems(items[1..])
  }

  function ShowField(f: Field): Text {
    ShowString(f.key) + [COLON] + Show(f.value)
  }

  function ShowFields(fields: seq<Field>): Text {
    if fields == [] then []
    else if |fields| == 1 then ShowField(fields[0])
    else ShowField(fields[0]) + [COMMA] + ShowFields(fields[1..])
  }

  /** The canonical text of a value, or none when the printer raises. */
  function CanonicalText(nfc: Nfc, v: Value): Option<Text> {
    match Normalize(nfc, v)
    case None => None
    case Some(n) => Some(Show(n))
  }

  function CanonicalBytes(nfc: Nfc, v: Value): Option<seq<Byte>> {
    match CanonicalText(nfc, v)
    case None => None
    case Some(t) => if Encodable(t) then Some(Encode(t)) else None
  }

  // ---- Parsing -----------------------------------------------------------

  predicate IsSpace(c: CodePoint) {
    c == ' ' as int || c == '\t' as int || c == '\n' as int || c == '\r' as int
  }

  function SkipSpace(s: Text): (r: Text)
    ensures |r| <= |s|
    ensures r == [] || !IsSpace(r[0])
  {
    if s != [] && IsSpace(s[0]) then SkipSpace(s[1..]) else s
  }

  predicate StartsWith(s: Text, token: Text) {
    |token| <= |s| && s[..|token|] == token
  }

  /** Collect a parsed object: keys become NFC, and two keys may not meet. */
  function PairsToDict(nfc: Nfc, pairs: seq<Field>): Option<seq<Field>> {
    var fs := seq(|pairs|, i requires 0 <= i < |pairs| => Field(nfc(pairs[i].key), pairs[i].value));
    if DistinctKeys(fs) then Some(fs) else None
  }

  /** One JSON value at the front of `s`, which starts with no white space. */
  function ParseValue(nfc: Nfc, s: Text): (r: Option<(Value, Text)>)
    ensures r.Some? ==> |r.value.1| < |s|
    decreases |s|, 0
  {
    if s == [] then None
    else if s[0] == QUOTE then
      (match ParseString(s[1..])
       case None => None
       case Some((text, rest)) => Some((Str(text), rest)))
    else if s[0] == OPEN_OBJECT then ParseObject(nfc, SkipSpace(s[1..]))
    else if s[0] == OPEN_ARRAY then ParseArray(nfc, SkipSpace(s[1..]))
    else if StartsWith(s, NULL_TOKEN) then Some((Null, s[4..]))
    else if StartsWith(s, TRUE_TOKEN) then Some((Bool(true), s[4..]))
    else if StartsWith(s, FALSE_TOKEN) then Some((Bool(false), s[5..]))
    else
      match ParseNumber(s)
      case None => None
      case Some((x, rest)) => Some((Num(x), rest))
  }

  function ParseArray(nfc: Nfc, s: Text): (r: Option<(Value, Text)>)
    ensures r.Some? ==> |r.value.1| < |s|
    decreases |s|, 2
  {
    if s != [] && s[0] == CLOSE_ARRAY then Some((Arr([]), s[1..]))
    else
      match ParseItems(nfc, s)
      case None => None
      case Some((items, rest)) => Some((Arr(items), rest))
  }

  /** One or more items up to and including the closing bracket. */
  function ParseItems(nfc: Nfc, s: Text): (r: Option<(seq<Value>, Text)>)
    ensures r.Some? ==> |r.value.1| < |s|
    decreases |s|, 1
  {
    match ParseValue(nfc, s)
    case None => None
    case Some((v, after)) =>
      var rest := SkipSpace(after);
      if rest == [] then None
      else if rest[0] == CLOSE_ARRAY then Some(([v], rest[1..]))
      else if rest[0] != COMMA then None
      else
        match ParseItems(nfc, SkipSpace(rest[1..]))
        case None => None
        case Some((items, end)) => Some(([v] + items, end))
  }

  function ParseObject(nfc: Nfc, s: Text): (r: Option<(Value, Text)>)
    ensures r.Some? ==> |r.value.1| < |s|
    decreases |s|, 2
  {
    if s != [] && s[0] == CLOSE_OBJECT then Some((Obj([]), s[1..]))
    else
      match ParseFields(nfc, s)
      case None => None
      case Some((pairs, rest)) =>
        match PairsToDict(nfc, pairs)
        case None => None
        case Some(fields) => Some((Obj(fields), rest))
  }

  /** A quoted key and its value. */
  function ParseField(nfc: Nfc, s: Text): (r: Option<(Field, Text)>)
    ensures r.Some? ==> |r.value.1| < |s|
    decreases |s|, 0
  {
    if s == [] || s[0] != QUOTE then None
    else
      match ParseString(s[1..])
      case None => None
      case Some((key, after)) =>
        var rest := SkipSpace(after);
        if rest == [] || rest[0] != COLON then None
        else
          match ParseValue(nfc, SkipSpace(rest[1..]))
          case None => None
          case Some((v, end)) => Some((Field(key, v), end))
  }

  /** One or more fields up to and including the closing brace. */
  function ParseFields(nfc: Nfc, s: Text): (r: Option<(seq<Field>, Text)>)
    ensures r.Some? ==> |r.value.1| < |s|
    decreases |s|, 1
  {
    match ParseField(nfc, s)
    case None => None
    case Some((f, after)) =>
      var rest := SkipSpace(after);
      if rest == [] then None
      else if rest[0] == CLOSE_OBJECT then Some(([f], rest[1..]))
      else if rest[0] != COMMA then None
      else
        match ParseFields(nfc, SkipSpace(rest[1..]))
        case None => None
        case Some((fields, end)) => Some(([f] + fields, end))
  }

  /** Strict loading of a whole text: one value, nothing but white space around it. */
  function StrictLoads(nfc: Nfc, t: Text): Option<Value> {
    match ParseValue(nfc, SkipSpace(t))
    case None => None
    case Some((v, rest)) => if SkipSpace(rest) == [] then Some(v) else None
  }

  function StrictLoadsBytes(nfc: Nfc, b: seq<Byte>): Option<Value> {
    match Decode(b)
    case None => None
    case Some(t) => StrictLoads(nfc, t)
  }

  // ---- Sorting by key ----------------------------------------------------

  predicate EncodableKeys(fs: seq<Field>) {
    forall i | 0 <= i < |fs| :: Encodable(fs[i].key)
  }

  lemma KeyLessTotal(a: Text, b: Text)
    requires Encodable(a) && Encodable(b) && a != b
    ensures KeyLess(a, b) || KeyLess(b, a)
    ensures !KeyLess(a, a)
  {
    LessTotal(Encode(a), Encode(b));
    if Encode(a) == Encode(b) {
      EncodeInjective(a, b);
    }
  }

  lemma {:induction false} InsertSorted(f: Field, fs: seq<Field>)
    requires SortedKeys(fs) && EncodableKeys([f] + fs) && !HasKey(fs, f.key)
    ensures SortedKeys(InsertField(f, fs))
  {
    if fs != [] {
      assert Encodable(([f] + fs)[0].key) && Encodable(([f] + fs)[1].key);
      assert fs[0].key != f.key;
      KeyLessTotal(fs[0].key, f.key);
      if KeyLess(fs[0].key, f.key) {
        assert EncodableKeys([f] + fs[1..]) by {
          forall i | 0 <= i < |fs| ensures Encodable(([f] + fs[1..])[i].key) {
            assert i > 0 ==> ([f] + fs[1..])[i] == ([f] + fs)[i + 1];
          }
        }
        InsertSorted(f, fs[1..]);
        var r := InsertField(f, fs[1..]);
        forall j | 0 <= j < |r| ensures KeyLess(fs[0].key, r[j].key) {
          assert r[j] in r;
        }
      } else {
        forall j | 0 <= j < |fs| ensures KeyLess(f.key, fs[j].key) {
          if j > 0 {
            LessTransitive(Encode(f.key), Encode(fs[0].key), Encode(fs[j].key));
          }
        }
      }
    }
  }

  lemma {:induction false} SortSorted(fs: seq<Field>)
    requires EncodableKeys(fs) && DistinctKeys(fs)
    ensures SortedKeys(SortFields(fs))
  {
    if fs != [] {
      SortSorted(fs[1..]);
      var r := SortFields(fs[1..]);
      forall i | 0 <= i < |r| ensures Encodable(r[i].key) && r[i].key != fs[0].key {
        assert r[i] in fs[1..];
      }
      InsertSorted(fs[0], r);
    }
  }

  /** Two sorted field lists with the same fields are the same list. */
  lemma {:induction false} SortedUnique(a: seq<Field>, b: seq<Field>)
    requires SortedKeys(a) && SortedKeys(b)
    requires forall f :: f in a <==> f in b
    ensures a == b
  {
    if b != [] {
      assert b[0] in b;
    }
    if a != [] {
      assert a[0] in b;
      var i :| 0 <= i < |b| && b[i] == a[0];
      var j :| 0 <= j < |a| && a[j] == b[0];
      LessTotal(Encode(a[0].key), Encode(b[0].key));
      assert i == 0;
      forall f ensures f in a[1..] <==> f in b[1..] {
        TailMembers(a, f);
        TailMembers(b, f);
      }
      SortedUnique(a[1..], b[1..]);
      assert a == [a[0]] + a[1..] && b == [b[0]] + b[1..];
    }
  }

  lemma TailMembers(a: seq<Field>, f: Field)
    requires a != [] && SortedKeys(a)
    ensures f in a[1..] <==> f in a && f != a[0]
  {
    assert a == [a[0]] + a[1..];
    LessTotal(Encode(a[0].key), Encode(a[0].key));
    forall i | 0 <= i < |a[1..]| ensures a[1..][i] != a[0] {
      assert KeyLess(a[0].key, a[i + 1].key);
    }
  }

  lemma SortedDistinct(fs: seq<Field>)
    requires SortedKeys(fs)
    ensures DistinctKeys(fs)
  {
    forall i, j | 0 <= i < j < |fs| ensures fs[i].key != fs[j].key {
      LessTotal(Encode(fs[i].key), Encode(fs[j].key));
    }
  }

  lemma SortOfSorted(fs: seq<Field>)
    requires SortedKeys(fs) && EncodableKeys(fs)
    ensures SortFields(fs) == fs
  {
    SortedDistinct(fs);
    SortSorted(fs);
    SortedUnique(SortFields(fs), fs);
  }

  // ---- Normalising reaches normal values, and fixes them -----------------

  lemma {:induction false} NormalizeNormal(nfc: Nfc, v: Value)
    requires Normalize(nfc, v).Some?
    ensures Normal(nfc, Normalize(nfc, v).value)
    decreases v, 0
  {
    match v {
      case Num(x) => NormalizeNumberNormal(x);
      case Arr(items) => NormalizeAllNormal(nfc, items);
      case Obj(fields) =>
        NormalizeFieldsNormal(nfc, fields);
        var fs := NormalizeFields(nfc, fields).value;
        SortSorted(fs);
        var sorted := SortFields(fs);
        forall i | 0 <= i < |sorted|
          ensures nfc(sorted[i].key) == sorted[i].key && Encodable(sorted[i].key) && Normal(nfc, sorted[i].value) {
          assert sorted[i] in fs;
        }
      case _ =>
    }
  }

  lemma {:induction false} NormalizeAllNormal(nfc: Nfc, items: seq<Value>)
    requires NormalizeAll(nfc, items).Some?
    ensures forall i | 0 <= i < |items| :: Normal(nfc, NormalizeAll(nfc, items).value[i])
    decreases items, 1
  {
    if items != [] {
      NormalizeNormal(nfc, items[0]);
      NormalizeAllNormal(nfc, items[1..]);
    }
  }

  lemma {:induction false} NormalizeFieldsNormal(nfc: Nfc, fields: seq<Field>)
    requires NormalizeFields(nfc, fields).Some?
    ensures NormalFields(nfc, NormalizeFields(nfc, fields).value)
    decreases fields, 1
  {
    if fields != [] {
      NormalizeNormal(nfc, fields[0].value);
      NormalizeFieldsNormal(nfc, fields[1..]);
    }
  }

  lemma {:induction false} NormalizeFixes(nfc: Nfc, v: Value)
    requires Normal(nfc, v)
    ensures Normalize(nfc, v) == Some(v)
    decreases v, 0
  {
    match v {
      case Num(x) => NormalizeNumberNormal(x);
      case Arr(items) => NormalizeAllFixes(nfc, items);
      case Obj(fields) =>
        NormalizeFieldsFixes(nfc, fields);
        SortedDistinct(fields);
        SortOfSorted(fields);
      case _ =>
    }
  }

  lemma {:induction false} NormalizeAllFixes(nfc: Nfc, items: seq<Value>)
    requires forall i | 0 <= i < |items| :: Normal(nfc, items[i])
    ensures NormalizeAll(nfc, items) == Some(items)
    decreases items, 1
  {
    if items != [] {
      NormalizeFixes(nfc, items[0]);
      NormalizeAllFixes(nfc, items[1..]);
      assert items == [items[0]] + items[1..];
    }
  }

  lemma {:induction false} NormalizeFieldsFixes(nfc: Nfc, fields: seq<Field>)
    requires NormalFields(nfc, fields)
    ensures NormalizeFields(nfc, fields) == Some(fields)
    decreases fields, 1
  {
    if fields != [] {
      NormalizeFixes(nfc, fields[0].value);
      NormalizeFieldsFixes(nfc, fields[1..]);
      assert fields == [fields[0]] + fields[1..];
    }
  }
}
