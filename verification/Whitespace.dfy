/** White space as text stripping sees it. */
module Whitespace {
  import opened Sequences
  import opened Utf8

  predicate IsBlank(c: CodePoint) {
    9 <= c <= 13 || 28 <= c <= 32 || c == 0x85 || c == 0xA0 || c == 0x1680 || 0x2000 <= c <= 0x200A
    || c == 0x2028 || c == 0x2029 || c == 0x202F || c == 0x205F || c == 0x3000
  }

  /** One by one: the controls from tab to carriage return and the four separators, the space, and the white space of
      Unicode beyond ASCII. */
  lemma BlankCodePoints(c: CodePoint)
    ensures IsBlank(c) <==>
              c in {0x09, 0x0A, 0x0B, 0x0C, 0x0D, 0x1C, 0x1D, 0x1E, 0x1F, 0x20, 0x85, 0xA0, 0x1680,
                    0x2000, 0x2001, 0x2002, 0x2003, 0x2004, 0x2005, 0x2006, 0x2007, 0x2008, 0x2009, 0x200A,
                    0x2028, 0x2029, 0x202F, 0x205F, 0x3000}
  {
  }

  function StripLeft(s: Text): (r: Text)
    ensures |r| <= |s|
    ensures r == [] || !IsBlank(r[0])
    ensures s != [] && r == s ==> !IsBlank(s[0])
  {
    if s != [] && IsBlank(s[0]) then StripLeft(s[1..]) else s
  }

  function StripRight(s: Text): (r: Text)
    ensures r <= s
    ensures r == [] || !IsBlank(r[|r| - 1])
  {
    if s != [] && IsBlank(s[|s| - 1]) then StripRight(s[..|s| - 1]) else s
  }

  function Strip(s: Text): (r: Text)
    ensures |r| <= |s|
    ensures r == [] || (!IsBlank(r[0]) && !IsBlank(r[|r| - 1]))
  {
    StripRight(StripLeft(s))
  }

  /** What is left of `s` when all white space goes. */
  function Ink(s: Text): Text {
    if s == [] then []
    else if IsBlank(s[0]) then Ink(s[1..])
    else [s[0]] + Ink(s[1..])
  }

  lemma {:induction false} InkConcat(s: Text, t: Text)
    ensures Ink(s + t) == Ink(s) + Ink(t)
  {
    if s == [] {
      assert s + t == t;
    } else {
      ConcatHead(s, t);
      InkConcat(s[1..], t);
      Associate([s[0]], Ink(s[1..]), Ink(t));
    }
  }

  lemma InkOfBlank(c: CodePoint)
    requires IsBlank(c)
    ensures Ink([c]) == []
  {
    assert [c][1..] == [];
  }

  lemma {:induction false} StripLeftKeepsInk(s: Text)
    ensures Ink(StripLeft(s)) == Ink(s)
  {
    if s != [] && IsBlank(s[0]) {
      StripLeftKeepsInk(s[1..]);
    }
  }

  lemma {:induction false} StripRightKeepsInk(s: Text)
    ensures Ink(StripRight(s)) == Ink(s)
  {
    if s != [] && IsBlank(s[|s| - 1]) {
      StripRightKeepsInk(s[..|s| - 1]);
      assert s == s[..|s| - 1] + [s[|s| - 1]];
      InkConcat(s[..|s| - 1], [s[|s| - 1]]);
      InkOfBlank(s[|s| - 1]);
    }
  }

  lemma {:induction false} StripLeftPart(s: Text) returns (k: nat)
    ensures k <= |s| && StripLeft(s) == s[k..] && forall i | 0 <= i < k :: IsBlank(s[i])
  {
    if s != [] && IsBlank(s[0]) {
      var rest := StripLeftPart(s[1..]);
      k := rest + 1;
    } else {
      k := 0;
    }
  }

  lemma {:induction false} StripRightPart(s: Text)
    ensures forall i | |StripRight(s)| <= i < |s| :: IsBlank(s[i])
  {
    if s != [] && IsBlank(s[|s| - 1]) {
      StripRightPart(s[..|s| - 1]);
    }
  }

  /** Stripping cuts off the white space at both ends, and no more. */
  lemma StripIs(s: Text) returns (i: nat, j: nat)
    ensures i <= j <= |s| && Strip(s) == s[i..j]
    ensures forall k | 0 <= k < i || j <= k < |s| :: IsBlank(s[k])
    ensures i < j ==> !IsBlank(s[i]) && !IsBlank(s[j - 1])
  {
    i := StripLeftPart(s);
    var rest := s[i..];
    StripRightPart(rest);
    j := i + |StripRight(rest)|;
    forall k | j <= k < |s| ensures IsBlank(s[k]) {
      assert s[k] == rest[k - i];
    }
  }

  /** Stripping removes nothing but white space. */
  lemma StripKeepsInk(s: Text)
    ensures Ink(Strip(s)) == Ink(s)
  {
    StripLeftKeepsInk(s);
    StripRightKeepsInk(StripLeft(s));
  }

  predicate EndsInInk(s: Text) {
    s != [] && !IsBlank(s[|s| - 1])
  }

  lemma {:induction false} InkOfEnding(s: Text)
    requires EndsInInk(s)
    ensures Ink(s) != []
  {
    if |s| > 1 {
      InkOfEnding(s[1..]);
    }
  }

  lemma BlankIffNoInk(s: Text)
    ensures Strip(s) == [] <==> Ink(s) == []
  {
    StripKeepsInk(s);
    if Strip(s) != [] {
      InkOfEnding(Strip(s));
    }
  }

  // ---- Pieces of a text --------------------------------------------------

  function Cons(c: CodePoint, pieces: seq<Text>): (r: seq<Text>)
    requires pieces != []
    ensures |r| == |pieces|
  {
    [[c] + pieces[0]] + pieces[1..]
  }

  function InkOf(pieces: seq<Text>): Text {
    if pieces == [] then [] else Ink(pieces[0]) + InkOf(pieces[1..])
  }

  lemma {:induction false} InkOfConcat(a: seq<Text>, b: seq<Text>)
    ensures InkOf(a + b) == InkOf(a) + InkOf(b)
  {
    if a == [] {
      assert a + b == b;
    } else {
      ConcatHead(a, b);
      InkOfConcat(a[1..], b);
      Associate(Ink(a[0]), InkOf(a[1..]), InkOf(b));
    }
  }

  lemma InkOfAppend(a: seq<Text>, p: Text)
    ensures InkOf(a + [p]) == InkOf(a) + Ink(p)
  {
    InkOfConcat(a, [p]);
    assert [p][1..] == [];
  }

  lemma InkOfPrefix(pieces: seq<Text>, i: nat)
    requires i < |pieces|
    ensures InkOf(pieces[..i + 1]) == InkOf(pieces[..i]) + Ink(pieces[i])
  {
    assert pieces[..i + 1] == pieces[..i] + [pieces[i]];
    InkOfAppend(pieces[..i], pieces[i]);
  }

  lemma InkOfCons(c: CodePoint, pieces: seq<Text>)
    requires pieces != []
    ensures InkOf(Cons(c, pieces)) == Ink([c]) + InkOf(pieces)
  {
    InkConcat([c], pieces[0]);
    ConcatHead([[c] + pieces[0]], pieces[1..]);
    assert [[c] + pieces[0]][1..] + pieces[1..] == pieces[1..];
    Associate(Ink([c]), Ink(pieces[0]), InkOf(pieces[1..]));
  }

  lemma InkSplit(s: Text, i: nat)
    requires i <= |s|
    ensures Ink(s) == Ink(s[..i]) + Ink(s[i..])
  {
    assert s == s[..i] + s[i..];
    InkConcat(s[..i], s[i..]);
  }

  lemma InkOfEmptyFirst(pieces: seq<Text>)
    ensures InkOf([[]] + pieces) == InkOf(pieces)
  {
    assert ([[]] + pieces)[1..] == pieces;
  }

  function KeptOf(text: Text): seq<Text> {
    if Strip(text) == [] then [] else [Strip(text)]
  }

  /** The stripped pieces that are not blank. */
  function Kept(pieces: seq<Text>): (r: seq<Text>)
    ensures forall i | 0 <= i < |r| :: r[i] != [] && !IsBlank(r[i][|r[i]| - 1])
  {
    if pieces == [] then []
    else KeptOf(pieces[0]) + Kept(pieces[1..])
  }

  lemma {:induction false} KeptKeepsInk(pieces: seq<Text>)
    ensures InkOf(Kept(pieces)) == InkOf(pieces)
  {
    if pieces != [] {
      KeptKeepsInk(pieces[1..]);
      StripKeepsInk(pieces[0]);
      var rest := Kept(pieces[1..]);
      assert ([Strip(pieces[0])] + rest)[1..] == rest && [] + rest == rest;
    }
  }

  lemma {:induction false} KeptAppend(pieces: seq<Text>, last: Text)
    ensures Kept(pieces + [last]) == Kept(pieces) + KeptOf(last)
  {
    if pieces == [] {
      assert pieces + [last] == [last] && [last][1..] == [];
    } else {
      KeptAppend(pieces[1..], last);
      ConcatHead(pieces, [last]);
      Associate(KeptOf(pieces[0]), Kept(pieces[1..]), KeptOf(last));
    }
  }

  /** The places of what is kept. */
  ghost predicate KeptAt(pieces: seq<Text>, places: seq<nat>, kept: seq<Text>) {
    && |places| == |kept|
    && (forall k | 0 <= k < |places| :: places[k] < |pieces| && kept[k] == Strip(pieces[places[k]]))
    && (forall j, k | 0 <= j < k < |places| :: places[j] < places[k])
    && forall i: nat :: i in places <==> i < |pieces| && Strip(pieces[i]) != []
  }

  lemma KeptAtMore(pieces: seq<Text>, places: seq<nat>, kept: seq<Text>, last: Text)
    requires KeptAt(pieces, places, kept)
    ensures Strip(last) != [] ==> KeptAt(pieces + [last], places + [|pieces|], kept + [Strip(last)])
    ensures Strip(last) == [] ==> KeptAt(pieces + [last], places, kept)
  {
    assert forall k | 0 <= k < |places| :: places[k] in places;
  }

  /** What is kept are the pieces that are not blank, stripped and in order. */
  lemma {:induction false} KeptIs(pieces: seq<Text>) returns (places: seq<nat>)
    ensures KeptAt(pieces, places, Kept(pieces))
  {
    if pieces == [] {
      places := [];
    } else {
      var n := |pieces| - 1;
      places := KeptIs(pieces[..n]);
      SplitLast(pieces);
      KeptAppend(pieces[..n], pieces[n]);
      KeptAtMore(pieces[..n], places, Kept(pieces[..n]), pieces[n]);
      if Strip(pieces[n]) != [] {
        places := places + [n];
      } else {
        assert Kept(pieces[..n]) + [] == Kept(pieces[..n]);
      }
    }
  }

  lemma KeptPrefix(texts: seq<Text>, i: nat)
    requires i < |texts|
    ensures Kept(texts[..i + 1]) == Kept(texts[..i]) + KeptOf(texts[i])
  {
    assert texts[..i + 1] == texts[..i] + [texts[i]];
    KeptAppend(texts[..i], texts[i]);
  }
}
