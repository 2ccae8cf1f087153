/** Text as the program sees it: sequences of code points, with UTF-8 (RFC 3629) between text and bytes.
    A code point may be a lone surrogate; such text has no UTF-8 encoding. */
module Utf8 {
  import opened Sequences

  type CodePoint = c: int | 0 <= c < 0x11_0000
  type Text = seq<CodePoint>
  type Byte = b: int | 0 <= b < 0x100

  datatype Option<+T> = None | Some(value: T)

  predicate IsSurrogate(c: CodePoint) {
    0xD800 <= c <= 0xDFFF
  }

  predicate Encodable(s: Text) {
    forall i | 0 <= i < |s| :: !IsSurrogate(s[i])
  }

  function EncodePoint(c: CodePoint): (b: seq<Byte>)
    ensures 1 <= |b| <= 4
  {
    if c < 0x80 then [c]
    else if c < 0x800 then [0xC0 + c / 64, Trail(c)]
    else if c < 0x1_0000 then [0xE0 + c / 64 / 64, Trail(c / 64), Trail(c)]
    else [0xF0 + c / 64 / 64 / 64, Trail(c / 64 / 64), Trail(c / 64), Trail(c)]
  }

  function Trail(n: nat): (b: Byte)
    ensures Continuation(b)
  {
    0x80 + n % 64
  }

  predicate Continuation(b: Byte) {
    0x80 <= b < 0xC0
  }

  /** One more six-bit group onto the value read so far. */
  function Join(high: int, trail: Byte): int {
    high * 64 + (trail - 0x80)
  }

  function Encode(s: Text): (b: seq<Byte>) {
    if s == [] then [] else EncodePoint(s[0]) + Encode(s[1..])
  }

  /** The well-formed sequence at the front of `b` (section 4 of RFC 3629): its code point and length. */
  function DecodePoint(b: seq<Byte>): (r: Option<(CodePoint, nat)>)
    ensures r.Some? ==> 1 <= r.value.1 <= |b|
  {
    if b == [] then None
    else if b[0] < 0x80 then Some((b[0], 1))
    else if 0xC2 <= b[0] < 0xE0 && |b| >= 2 && Continuation(b[1]) then
      Some((Join(b[0] as int - 0xC0, b[1]), 2))
    else if 0xE0 <= b[0] < 0xF0 && |b| >= 3 && Continuation(b[1]) && Continuation(b[2]) then
      var c := Join(Join(b[0] as int - 0xE0, b[1]), b[2]);
      if c < 0x800 || IsSurrogate(c) then None else Some((c, 3))
    else if 0xF0 <= b[0] < 0xF5 && |b| >= 4 && Continuation(b[1]) && Continuation(b[2]) && Continuation(b[3]) then
      var c := Join(Join(Join(b[0] as int - 0xF0, b[1]), b[2]), b[3]);
      if c < 0x1_0000 || c >= 0x11_0000 then None else Some((c, 4))
    else None
  }

  /** Strict decoding: any ill-formed sequence is an error. */
  function Decode(b: seq<Byte>): (r: Option<Text>)
    decreases |b|
  {
    if b == [] then Some([])
    else match DecodePoint(b)
      case None => None
      case Some((c, n)) =>
        match Decode(b[n..])
        case None => None
        case Some(rest) => Some([c] + rest)
  }

  /** Lossy decoding: bytes that start no well-formed sequence are dropped. */
  function DecodeIgnoring(b: seq<Byte>): Text
    decreases |b|
  {
    if b == [] then []
    else match DecodePoint(b)
      case None => DecodeIgnoring(b[1..])
      case Some((c, n)) => [c] + DecodeIgnoring(b[n..])
  }

  lemma JoinInvertsTrail(n: nat)
    ensures Join(n / 64, Trail(n)) == n
  {
  }

  lemma TrailInvertsJoin(high: nat, trail: Byte)
    requires Continuation(trail)
    ensures Join(high, trail) / 64 == high && Trail(Join(high, trail)) == trail
  {
  }

  lemma DecodePointInvertsEncodePoint(c: CodePoint, rest: seq<Byte>)
    requires !IsSurrogate(c)
    ensures DecodePoint(EncodePoint(c) + rest) == Some((c, |EncodePoint(c)|))
  {
    JoinInvertsTrail(c);
    JoinInvertsTrail(c / 64);
    JoinInvertsTrail(c / 64 / 64);
  }

  lemma EncodePointInvertsDecodePoint(b: seq<Byte>)
    requires DecodePoint(b).Some?
    ensures var (c, n) := DecodePoint(b).value; !IsSurrogate(c) && b[..n] == EncodePoint(c)
  {
    var (c, n) := DecodePoint(b).value;
    if n == 2 {
      TrailInvertsJoin(b[0] - 0xC0, b[1]);
    } else if n == 3 {
      TrailInvertsJoin(b[0] - 0xE0, b[1]);
      TrailInvertsJoin(Join(b[0] - 0xE0, b[1]), b[2]);
    } else if n == 4 {
      TrailInvertsJoin(b[0] - 0xF0, b[1]);
      TrailInvertsJoin(Join(b[0] - 0xF0, b[1]), b[2]);
      TrailInvertsJoin(Join(Join(b[0] - 0xF0, b[1]), b[2]), b[3]);
    }
  }

  predicate Tail(b: int) {
    0x80 <= b <= 0xBF
  }

  /** The byte sequences of section 4 of RFC 3629, and the code points they stand for. */
  predicate StandsFor(b: seq<int>, c: int) {
    || (|b| == 1 && 0 <= b[0] <= 0x7F && c == b[0])
    || (|b| == 2 && 0xC2 <= b[0] <= 0xDF && Tail(b[1]) && c == (b[0] - 0xC0) * 0x40 + (b[1] - 0x80))
    || (|b| == 3 && Tail(b[1]) && Tail(b[2])
        && ((b[0] == 0xE0 && b[1] >= 0xA0) || 0xE1 <= b[0] <= 0xEC || (b[0] == 0xED && b[1] <= 0x9F)
            || 0xEE <= b[0] <= 0xEF)
        && c == (b[0] - 0xE0) * 0x1000 + (b[1] - 0x80) * 0x40 + (b[2] - 0x80))
    || (|b| == 4 && Tail(b[1]) && Tail(b[2]) && Tail(b[3])
        && ((b[0] == 0xF0 && b[1] >= 0x90) || 0xF1 <= b[0] <= 0xF3 || (b[0] == 0xF4 && b[1] <= 0x8F))
        && c == (b[0] - 0xF0) * 0x4_0000 + (b[1] - 0x80) * 0x1000 + (b[2] - 0x80) * 0x40 + (b[3] - 0x80))
  }

  lemma StandsForItsEncoding(c: CodePoint)
    requires !IsSurrogate(c)
    ensures StandsFor(EncodePoint(c), c)
  {
    JoinInvertsTrail(c);
    JoinInvertsTrail(c / 64);
    JoinInvertsTrail(c / 64 / 64);
  }

  lemma TwoBytesOnly(b: seq<Byte>, c: CodePoint)
    requires |b| == 2 && StandsFor(b, c)
    ensures b == EncodePoint(c) && !IsSurrogate(c)
  {
    TrailInvertsJoin(b[0] - 0xC0, b[1]);
  }

  lemma ThreeBytesOnly(b: seq<Byte>, c: CodePoint)
    requires |b| == 3 && StandsFor(b, c)
    ensures b == EncodePoint(c) && !IsSurrogate(c)
  {
    var high := Join(b[0] - 0xE0, b[1]);
    assert c == Join(high, b[2]) && 0x800 <= c < 0x1_0000;
    TrailInvertsJoin(b[0] - 0xE0, b[1]);
    TrailInvertsJoin(high, b[2]);
  }

  lemma FourBytesOnly(b: seq<Byte>, c: CodePoint)
    requires |b| == 4 && StandsFor(b, c)
    ensures b == EncodePoint(c) && !IsSurrogate(c)
  {
    var high := Join(b[0] - 0xF0, b[1]);
    var middle := Join(high, b[2]);
    assert c == Join(middle, b[3]) && c >= 0x1_0000;
    TrailInvertsJoin(b[0] - 0xF0, b[1]);
    TrailInvertsJoin(high, b[2]);
    TrailInvertsJoin(middle, b[3]);
  }

  lemma StandsForOnly(b: seq<Byte>, c: CodePoint)
    requires StandsFor(b, c)
    ensures b == EncodePoint(c) && !IsSurrogate(c)
  {
    if |b| == 2 {
      TwoBytesOnly(b, c);
    } else if |b| == 3 {
      ThreeBytesOnly(b, c);
    } else if |b| == 4 {
      FourBytesOnly(b, c);
    }
  }

  /** A code point is encoded as the standard has it, and by nothing else; surrogates are not encoded. */
  lemma EncodedAsStandard(b: seq<Byte>, c: CodePoint)
    ensures b == EncodePoint(c) && !IsSurrogate(c) <==> StandsFor(b, c)
  {
    if StandsFor(b, c) {
      StandsForOnly(b, c);
    } else if !IsSurrogate(c) {
      StandsForItsEncoding(c);
    }
  }

  lemma {:induction false} EncodeConcat(s: Text, t: Text)
    ensures Encode(s + t) == Encode(s) + Encode(t)
  {
    if s == [] {
      assert s + t == t;
    } else {
      EncodeConcat(s[1..], t);
      ConcatHead(s, t);
      Associate(EncodePoint(s[0]), Encode(s[1..]), Encode(t));
    }
  }

  lemma {:induction false} DecodeInvertsEncode(s: Text)
    requires Encodable(s)
    ensures Decode(Encode(s)) == Some(s)
  {
    if s != [] {
      var rest := Encode(s[1..]);
      DecodePointInvertsEncodePoint(s[0], rest);
      assert Encode(s)[|EncodePoint(s[0])|..] == rest;
      DecodeInvertsEncode(s[1..]);
      assert s == [s[0]] + s[1..];
    }
  }

  lemma EncodeCons(c: CodePoint, rest: Text)
    ensures Encode([c] + rest) == EncodePoint(c) + Encode(rest)
  {
    assert ([c] + rest)[1..] == rest;
  }

  lemma {:induction false} EncodeInvertsDecode(b: seq<Byte>)
    requires Decode(b).Some?
    ensures Encodable(Decode(b).value) && Encode(Decode(b).value) == b
    decreases |b|
  {
    if b != [] {
      var (c, n) := DecodePoint(b).value;
      EncodePointInvertsDecodePoint(b);
      EncodeInvertsDecode(b[n..]);
      EncodeCons(c, Decode(b[n..]).value);
      SplitAt(b, n);
    }
  }

  /** Strict decoding accepts exactly the encodings, and undoes them. */
  lemma DecodeIffEncoded(b: seq<Byte>, s: Text)
    ensures Decode(b) == Some(s) <==> Encodable(s) && b == Encode(s)
  {
    if Encodable(s) {
      DecodeInvertsEncode(s);
    }
    if Decode(b).Some? {
      EncodeInvertsDecode(b);
    }
  }

  lemma EncodeInjective(s: Text, t: Text)
    requires Encodable(s) && Encodable(t) && Encode(s) == Encode(t)
    ensures s == t
  {
    DecodeIffEncoded(Encode(s), s);
    DecodeIffEncoded(Encode(t), t);
  }

  // ---- Order -------------------------------------------------------------

  /** Lexicographic order, a proper prefix being smaller: the order of byte strings and of text. */
  predicate Less(a: seq<int>, b: seq<int>) {
    if b == [] then false
    else if a == [] then true
    else if a[0] != b[0] then a[0] < b[0]
    else Less(a[1..], b[1..])
  }

  lemma {:induction false} LessTotal(a: seq<int>, b: seq<int>)
    ensures Less(a, b) || a == b || Less(b, a)
    ensures !(Less(a, b) && Less(b, a)) && !Less(a, a)
  {
    if a != [] {
      LessTotal(a[1..], a[1..]);
      if b != [] {
        LessTotal(a[1..], b[1..]);
        if a[0] == b[0] && a[1..] == b[1..] {
          assert a == [a[0]] + a[1..] == b;
        }
      }
    }
  }

  lemma {:induction false} LessTransitive(a: seq<int>, b: seq<int>, c: seq<int>)
    requires Less(a, b) && Less(b, c)
    ensures Less(a, c)
  {
    if a != [] && a[0] == b[0] == c[0] {
      LessTransitive(a[1..], b[1..], c[1..]);
    }
  }

  lemma {:induction false} LessAfterPrefix(p: seq<int>, a: seq<int>, b: seq<int>)
    ensures Less(p + a, p + b) == Less(a, b)
  {
    if p == [] {
      assert p + a == a && p + b == b;
    } else {
      LessAfterPrefix(p[1..], a, b);
      assert (p + a)[1..] == p[1..] + a && (p + b)[1..] == p[1..] + b;
    }
  }

  lemma LessAtDifference(a: seq<int>, b: seq<int>, k: nat)
    requires k < |a| && k < |b| && a[..k] == b[..k] && a[k] < b[k]
    ensures Less(a, b)
  {
    LessAfterPrefix(a[..k], a[k..], b[k..]);
    assert a == a[..k] + a[k..] && b == b[..k] + b[k..];
  }

  /** Two points of the same encoded length differ first at some byte, in the order of the points. */
  lemma FirstDifference(c: CodePoint, d: CodePoint) returns (k: nat)
    requires c < d
    ensures k < |EncodePoint(c)| && k < |EncodePoint(d)|
    ensures EncodePoint(c)[..k] == EncodePoint(d)[..k] && EncodePoint(c)[k] < EncodePoint(d)[k]
  {
    var a, b := EncodePoint(c), EncodePoint(d);
    JoinInvertsTrail(c);
    JoinInvertsTrail(d);
    JoinInvertsTrail(c / 64);
    JoinInvertsTrail(d / 64);
    JoinInvertsTrail(c / 64 / 64);
    JoinInvertsTrail(d / 64 / 64);
    k := if a[0] != b[0] then 0 else if a[1] != b[1] then 1 else if a[2] != b[2] then 2 else 3;
  }

  lemma SmallerPointSmallerBytes(c: CodePoint, d: CodePoint, x: seq<Byte>, y: seq<Byte>)
    requires c < d
    ensures Less(EncodePoint(c) + x, EncodePoint(d) + y)
  {
    var k := FirstDifference(c, d);
    var a, b := EncodePoint(c), EncodePoint(d);
    assert (a + x)[..k] == a[..k] && (b + y)[..k] == b[..k];
    LessAtDifference(a + x, b + y, k);
  }

  /** Ordering text by its UTF-8 bytes is ordering it by its code points. */
  lemma {:induction false} ByteOrderIsCodePointOrder(s: Text, t: Text)
    ensures Less(Encode(s), Encode(t)) == Less(s, t)
  {
    if s != [] && t != [] {
      if s[0] < t[0] {
        SmallerPointSmallerBytes(s[0], t[0], Encode(s[1..]), Encode(t[1..]));
      } else if t[0] < s[0] {
        SmallerPointSmallerBytes(t[0], s[0], Encode(t[1..]), Encode(s[1..]));
        LessTotal(Encode(s), Encode(t));
      } else {
        LessAfterPrefix(EncodePoint(s[0]), Encode(s[1..]), Encode(t[1..]));
        ByteOrderIsCodePointOrder(s[1..], t[1..]);
      }
    }
  }

  // ---- Truncation --------------------------------------------------------

  /** Keep at most `maxBytes` bytes of the encoding; the flag says whether anything was cut.
      Text with a lone surrogate cannot be encoded. */
  function Truncate(value: Text, maxBytes: nat): (r: Option<(Text, bool)>) {
    if !Encodable(value) then None
    else
      var encoded := Encode(value);
      if |encoded| <= maxBytes then Some((value, false))
      else Some((DecodeIgnoring(encoded[..maxBytes]), true))
  }

  lemma {:induction false} ContinuationsDropped(b: seq<Byte>)
    requires forall i | 0 <= i < |b| :: Continuation(b[i])
    ensures DecodeIgnoring(b) == []
  {
    if b != [] {
      ContinuationsDropped(b[1..]);
    }
  }

  lemma PartialPointDropped(c: CodePoint, n: nat)
    requires n < |EncodePoint(c)|
    ensures DecodeIgnoring(EncodePoint(c)[..n]) == []
  {
    var b := EncodePoint(c)[..n];
    if n >= 1 {
      ContinuationsDropped(b[1..]);
    }
  }

  lemma DecodeIgnoringCons(c: CodePoint, rest: seq<Byte>)
    requires !IsSurrogate(c)
    ensures DecodeIgnoring(EncodePoint(c) + rest) == [c] + DecodeIgnoring(rest)
  {
    DecodePointInvertsEncodePoint(c, rest);
    assert (EncodePoint(c) + rest)[|EncodePoint(c)|..] == rest;
  }

  /** A prefix of the tail, put after the head. */
  lemma ExtendPrefix(s: Text, p: Text)
    requires s != [] && p <= s[1..]
    ensures var q := [s[0]] + p;
            && q <= s && |Encode(q)| == |EncodePoint(s[0])| + |Encode(p)|
            && (|p| < |s[1..]| ==> |Encode(s[..|q| + 1])| == |EncodePoint(s[0])| + |Encode(s[1..][..|p| + 1])|)
  {
    EncodeCons(s[0], p);
    assert s == [s[0]] + s[1..];
    if |p| < |s[1..]| {
      EncodeCons(s[0], s[1..][..|p| + 1]);
      assert s[..|p| + 2] == [s[0]] + s[1..][..|p| + 1];
    }
  }

  lemma {:induction false} CutEncodingKeepsWholePoints(s: Text, n: nat)
    requires Encodable(s) && n <= |Encode(s)|
    ensures var p := DecodeIgnoring(Encode(s)[..n]);
            && p <= s && |Encode(p)| <= n
            && (|p| < |s| ==> n < |Encode(s[..|p| + 1])|)
  {
    if s != [] {
      var first := EncodePoint(s[0]);
      if n < |first| {
        assert Encode(s)[..n] == first[..n];
        PartialPointDropped(s[0], n);
        assert s[..1] == [s[0]];
        assert Encode([s[0]]) == first;
      } else {
        var b := Encode(s)[..n];
        var rest := Encode(s[1..])[..n - |first|];
        assert b == first + rest;
        CutEncodingKeepsWholePoints(s[1..], n - |first|);
        DecodeIgnoringCons(s[0], rest);
        ExtendPrefix(s, DecodeIgnoring(rest));
      }
    }
  }

  /** Truncation yields the longest whole-code-point prefix that fits, and reports exactly whether it cut. */
  lemma TruncateIsLongestPrefix(value: Text, maxBytes: nat)
    requires Encodable(value)
    ensures Truncate(value, maxBytes).Some?
    ensures var (p, cut) := Truncate(value, maxBytes).value;
            && p <= value && |Encode(p)| <= maxBytes
            && (cut <==> p != value)
            && (forall k | |p| < k <= |value| :: |Encode(value[..k])| > maxBytes)
  {
    var (p, cut) := Truncate(value, maxBytes).value;
    if cut {
      CutEncodingKeepsWholePoints(value, maxBytes);
      forall k | |p| < k <= |value| ensures |Encode(value[..k])| > maxBytes {
        assert value[..k] == value[..|p| + 1] + value[|p| + 1..k];
        EncodeConcat(value[..|p| + 1], value[|p| + 1..k]);
      }
    }
  }
}
