/** Where a document's text is cut: at lines, at empty lines, after sentences, and by count. */
module ChunkSplits {
  import opened Sequences
  import opened Utf8
  import opened Whitespace

  const NEWLINE: CodePoint := 10

  predicate EndsSentence(c: CodePoint) {
    c == 0x3002 || c == 0xFF01 || c == 0xFF1F || c == '.' as int || c == '!' as int || c == '?' as int || c == NEWLINE
  }

  // ---- Splitting ---------------------------------------------------------

  /** Split at every newline. */
  function SplitLines(s: Text): (r: seq<Text>)
    ensures r != []
  {
    if s == [] then [[]]
    else if s[0] == NEWLINE then [[]] + SplitLines(s[1..])
    else Cons(s[0], SplitLines(s[1..]))
  }

  function NewlineRun(s: Text): (n: nat)
    ensures n <= |s| && forall i | 0 <= i < n :: s[i] == NEWLINE
  {
    if s == [] || s[0] != NEWLINE then 0 else 1 + NewlineRun(s[1..])
  }

  /** Split at every run of two or more newlines. */
  function SplitBlankLines(s: Text): (r: seq<Text>)
    ensures r != []
    decreases |s|
  {
    if s == [] then [[]]
    else if NewlineRun(s) >= 2 then [[]] + SplitBlankLines(s[NewlineRun(s)..])
    else Cons(s[0], SplitBlankLines(s[1..]))
  }

  function SplitParagraphs(s: Text): seq<Text> {
    if |SplitBlankLines(s)| <= 1 then SplitLines(s) else SplitBlankLines(s)
  }

  /** Split after every sentence end, keeping it. */
  function SplitSentences(s: Text): (r: seq<Text>)
    ensures r != []
  {
    if s == [] then [[]]
    else if EndsSentence(s[0]) then [[s[0]]] + SplitSentences(s[1..])
    else Cons(s[0], SplitSentences(s[1..]))
  }

  function SplitByChars(s: Text, size: nat): (r: seq<Text>)
    requires size > 0
    ensures forall i | 0 <= i < |r| :: 0 < |r[i]| <= size
    decreases |s|
  {
    if s == [] then []
    else if |s| <= size then [s]
    else [s[..size]] + SplitByChars(s[size..], size)
  }

  // ---- Ink ---------------------------------------------------------------

  lemma {:induction false} SplitLinesKeepsInk(s: Text)
    ensures InkOf(SplitLines(s)) == Ink(s)
  {
    if s == [] {
      InkOfEmptyFirst([]);
    } else {
      SplitLinesKeepsInk(s[1..]);
      InkSplit(s, 1);
      assert s[..1] == [s[0]];
      if s[0] == NEWLINE {
        InkOfBlank(NEWLINE);
        InkOfEmptyFirst(SplitLines(s[1..]));
      } else {
        InkOfCons(s[0], SplitLines(s[1..]));
      }
    }
  }

  lemma {:induction false} NewlinesAreBlank(s: Text)
    requires forall i | 0 <= i < |s| :: s[i] == NEWLINE
    ensures Ink(s) == []
  {
    if s != [] {
      NewlinesAreBlank(s[1..]);
    }
  }

  lemma {:induction false} SplitBlankLinesKeepsInk(s: Text)
    ensures InkOf(SplitBlankLines(s)) == Ink(s)
    decreases |s|
  {
    if s == [] {
      InkOfEmptyFirst([]);
    } else if NewlineRun(s) >= 2 {
      var n := NewlineRun(s);
      SplitBlankLinesKeepsInk(s[n..]);
      NewlinesAreBlank(s[..n]);
      InkSplit(s, n);
      InkOfEmptyFirst(SplitBlankLines(s[n..]));
    } else {
      SplitBlankLinesKeepsInk(s[1..]);
      InkOfCons(s[0], SplitBlankLines(s[1..]));
      InkSplit(s, 1);
      assert s[..1] == [s[0]];
    }
  }

  lemma {:induction false} SplitSentencesKeepsInk(s: Text)
    ensures InkOf(SplitSentences(s)) == Ink(s)
  {
    if s == [] {
      InkOfEmptyFirst([]);
    } else {
      SplitSentencesKeepsInk(s[1..]);
      InkSplit(s, 1);
      assert s[..1] == [s[0]];
      var rest := SplitSentences(s[1..]);
      if EndsSentence(s[0]) {
        assert ([[s[0]]] + rest)[1..] == rest;
      } else {
        InkOfCons(s[0], rest);
      }
    }
  }

  lemma {:induction false} SplitByCharsKeepsInk(s: Text, size: nat)
    requires size > 0
    ensures InkOf(SplitByChars(s, size)) == Ink(s)
    decreases |s|
  {
    if |s| > size {
      SplitByCharsKeepsInk(s[size..], size);
      InkSplit(s, size);
      assert SplitByChars(s, size)[1..] == SplitByChars(s[size..], size);
    } else if s != [] {
      assert [s][1..] == [];
    }
  }

  lemma SplitParagraphsKeepsInk(s: Text)
    ensures InkOf(SplitParagraphs(s)) == Ink(s)
  {
    SplitLinesKeepsInk(s);
    SplitBlankLinesKeepsInk(s);
  }

  // ---- Where the cuts are ------------------------------------------------

  /** The pieces one after the other. */
  function Flat(pieces: seq<Text>): Text {
    if pieces == [] then [] else pieces[0] + Flat(pieces[1..])
  }

  /** The pieces with a newline between one and the next. */
  function Woven(pieces: seq<Text>): Text {
    if pieces == [] then [] else if |pieces| == 1 then pieces[0] else pieces[0] + [10] + Woven(pieces[1..])
  }

  lemma FlatCons(c: CodePoint, pieces: seq<Text>)
    requires pieces != []
    ensures Flat(Cons(c, pieces)) == [c] + Flat(pieces)
  {
    Associate([c], pieces[0], Flat(pieces[1..]));
  }

  lemma WovenCons(c: CodePoint, pieces: seq<Text>)
    requires pieces != []
    ensures Woven(Cons(c, pieces)) == [c] + Woven(pieces)
  {
    if |pieces| > 1 {
      var rest := [10] + Woven(pieces[1..]);
      assert [c] + pieces[0] + [10] + Woven(pieces[1..]) == [c] + (pieces[0] + [10] + Woven(pieces[1..]));
      assert Cons(c, pieces)[1..] == pieces[1..];
    }
  }

  /** The lines hold no newline, and with one between each two of them they are the text. */
  lemma {:induction false} LinesAre(s: Text)
    ensures Woven(SplitLines(s)) == s
    ensures forall i | 0 <= i < |SplitLines(s)| :: 10 !in SplitLines(s)[i]
  {
    if s != [] {
      LinesAre(s[1..]);
      SplitFirst(s);
      if s[0] == NEWLINE {
        assert ([[]] + SplitLines(s[1..]))[1..] == SplitLines(s[1..]);
      } else {
        WovenCons(s[0], SplitLines(s[1..]));
      }
    }
  }

  /** Two newlines in a row at `i`. */
  predicate GapAt(s: Text, i: nat) {
    i + 1 < |s| && s[i] == 10 && s[i + 1] == 10
  }

  /** The text is cut at its runs of two newlines or more, each taken whole. */
  ghost predicate CutAtGaps(s: Text, pieces: seq<Text>)
    decreases |pieces|, 0
  {
    && pieces != [] && pieces[0] <= s && (forall i | 0 <= i < |pieces[0]| :: !GapAt(s, i))
    && CutThere(s[|pieces[0]|..], pieces[1..])
  }

  /** What follows a piece: nothing, or a run of newlines and the other pieces. */
  ghost predicate CutThere(rest: Text, pieces: seq<Text>)
    decreases |pieces|, 1
  {
    if pieces == [] then rest == []
    else exists n | 2 <= n <= |rest| ::
           && (forall i | 0 <= i < n :: rest[i] == 10) && (n < |rest| ==> rest[n] != 10)
           && CutAtGaps(rest[n..], pieces)
  }

  lemma CutLonger(s: Text, pieces: seq<Text>)
    requires s != [] && !GapAt(s, 0) && CutAtGaps(s[1..], pieces)
    ensures CutAtGaps(s, Cons(s[0], pieces))
  {
    var rest, more := s[1..], Cons(s[0], pieces);
    assert more[0] == [s[0]] + pieces[0] && more[1..] == pieces[1..];
    SplitFirst(s);
    forall i | 0 <= i < |more[0]| ensures !GapAt(s, i) {
      assert i > 0 ==> !GapAt(rest, i - 1);
    }
    assert s[|more[0]|..] == rest[|pieces[0]|..];
  }

  lemma {:induction false} NewlineRunIs(s: Text)
    ensures NewlineRun(s) < |s| ==> s[NewlineRun(s)] != 10
    ensures NewlineRun(s) >= 2 <==> GapAt(s, 0)
  {
    if s != [] && s[0] == NEWLINE {
      NewlineRunIs(s[1..]);
    }
  }

  lemma {:induction false} GapsAre(s: Text)
    ensures CutAtGaps(s, SplitBlankLines(s))
    decreases |s|
  {
    NewlineRunIs(s);
    if s != [] {
      var n := NewlineRun(s);
      if n >= 2 {
        GapsAre(s[n..]);
        var pieces := [[]] + SplitBlankLines(s[n..]);
        assert pieces[1..] == SplitBlankLines(s[n..]) && s[0..] == s;
      } else {
        GapsAre(s[1..]);
        CutLonger(s, SplitBlankLines(s[1..]));
      }
    }
  }

  lemma OnePieceIff(s: Text, pieces: seq<Text>)
    requires CutAtGaps(s, pieces)
    ensures |pieces| == 1 <==> forall i | 0 <= i < |s| :: !GapAt(s, i)
  {
    if |pieces| == 1 {
      assert pieces[0] == s;
    } else {
      var k := |pieces[0]|;
      var n :| 2 <= n <= |s[k..]| && forall i | 0 <= i < n :: s[k..][i] == 10;
      assert s[k] == s[k..][0] && s[k + 1] == s[k..][1];
      assert GapAt(s, k);
    }
  }

  /** The paragraphs of a text: its parts between empty lines, or its lines if there are none. */
  lemma ParagraphsAre(s: Text)
    ensures (exists i | 0 <= i < |s| :: GapAt(s, i)) ==> CutAtGaps(s, SplitParagraphs(s))
    ensures (forall i | 0 <= i < |s| :: !GapAt(s, i)) ==>
              Woven(SplitParagraphs(s)) == s && forall i | 0 <= i < |SplitParagraphs(s)| :: 10 !in SplitParagraphs(s)[i]
  {
    GapsAre(s);
    OnePieceIff(s, SplitBlankLines(s));
    LinesAre(s);
  }

  /** The full stops, exclamation and question marks, ideographic ones too, and the newline. */
  const SENTENCE_ENDS: set<CodePoint> := {0x3002, 0xFF01, 0xFF1F, 0x2E, 0x21, 0x3F, 0x0A}

  predicate NoEnd(s: Text) {
    forall i | 0 <= i < |s| :: s[i] !in SENTENCE_ENDS
  }

  /** The sentences are the text, each up to and with its end; what follows the last end, if only nothing, comes last.
      */
  predicate Sentences(s: Text, pieces: seq<Text>) {
    && Flat(pieces) == s && pieces != [] && NoEnd(pieces[|pieces| - 1])
    && forall i | 0 <= i < |pieces| - 1 ::
         var p := pieces[i]; p != [] && NoEnd(p[..|p| - 1]) && p[|p| - 1] in SENTENCE_ENDS
  }

  lemma SentencesCons(c: CodePoint, s: Text, pieces: seq<Text>)
    requires Sentences(s, pieces) && c !in SENTENCE_ENDS
    ensures Sentences([c] + s, Cons(c, pieces))
  {
    FlatCons(c, pieces);
    var more := Cons(c, pieces);
    if |pieces| > 1 {
      var p := pieces[0];
      assert more[0][..|more[0]| - 1] == [c] + p[..|p| - 1];
    }
    forall i | 1 <= i < |more| ensures more[i] == pieces[i] {
    }
  }

  lemma {:induction false} SentencesAre(s: Text)
    ensures Sentences(s, SplitSentences(s))
  {
    if s == [] {
      var nothing: Text := [];
      assert [nothing][1..] == [];
    } else {
      SentencesAre(s[1..]);
      SplitFirst(s);
      if EndsSentence(s[0]) {
        var rest := SplitSentences(s[1..]);
        assert ([[s[0]]] + rest)[1..] == rest;
      } else {
        SentencesCons(s[0], s[1..], SplitSentences(s[1..]));
      }
    }
  }

  /** The pieces are the text, each of `size` characters, but the last one may have fewer. */
  predicate CutByCount(s: Text, pieces: seq<Text>, size: nat) {
    && Flat(pieces) == s && (forall i | 0 <= i < |pieces| - 1 :: |pieces[i]| == size)
    && (pieces != [] ==> 0 < |pieces[|pieces| - 1]| <= size)
  }

  lemma {:induction false} ByCountIs(s: Text, size: nat)
    requires size > 0
    ensures CutByCount(s, SplitByChars(s, size), size)
    decreases |s|
  {
    if |s| > size {
      ByCountIs(s[size..], size);
      SplitAt(s, size);
      assert SplitByChars(s, size)[1..] == SplitByChars(s[size..], size);
    } else if s != [] {
      assert [s][1..] == [];
      assert s + [] == s;
    }
  }

  // ---- Breaking a long paragraph -----------------------------------------

  predicate AllFit(chunks: seq<Text>, size: nat) {
    forall i | 0 <= i < |chunks| :: 0 < |chunks[i]| <= size
  }

  predicate NonEmpty(chunks: seq<Text>) {
    forall i | 0 <= i < |chunks| :: chunks[i] != []
  }

  function Concat(groups: seq<seq<Text>>): seq<Text> {
    if groups == [] then [] else Concat(groups[..|groups| - 1]) + groups[|groups| - 1]
  }

  lemma ConcatAppend(groups: seq<seq<Text>>, g: seq<Text>)
    ensures Concat(groups + [g]) == Concat(groups) + g
  {
    assert (groups + [g])[..|groups|] == groups;
  }

  /** One sentence after another went in as long as there was room for it and one character more. */
  predicate Full(group: seq<Text>, maxSize: nat) {
    group != [] && forall k | 1 <= k < |group| :: |Flat(group[..k])| + |group[k]| + 1 <= maxSize
  }

  /** Sentences packed into chunks: in order, and a chunk ends only where the next sentence leaves no such room. */
  predicate Packing(sentences: seq<Text>, groups: seq<seq<Text>>, chunks: seq<Text>, maxSize: nat) {
    && Concat(groups) == sentences && |chunks| == |groups|
    && (forall i | 0 <= i < |groups| :: Full(groups[i], maxSize) && chunks[i] == Flat(groups[i]))
    && forall i | 0 <= i < |groups| - 1 :: |chunks[i]| + |groups[i + 1][0]| + 1 > maxSize
  }

  /** The same with the last chunk still open. */
  predicate PackingOpen(
      sentences: seq<Text>, groups: seq<seq<Text>>, chunks: seq<Text>, group: seq<Text>, current: Text, maxSize: nat)
  {
    if group == [] then current == [] && chunks == [] && groups == [] && sentences == []
    else current != [] && Packing(sentences, groups + [group], chunks + [current], maxSize)
  }

  lemma FlatAppend(pieces: seq<Text>, p: Text)
    ensures Flat(pieces + [p]) == Flat(pieces) + p
  {
    if pieces == [] {
      assert [] + [p] == [p] && [p][1..] == [] && p + [] == p && [] + p == p;
    } else {
      FlatAppend(pieces[1..], p);
      ConcatHead(pieces, [p]);
      Associate(pieces[0], Flat(pieces[1..]), p);
    }
  }

  lemma FullMore(group: seq<Text>, sent: Text, maxSize: nat)
    requires Full(group, maxSize) && |Flat(group)| + |sent| + 1 <= maxSize
    ensures Full(group + [sent], maxSize)
  {
    forall k | 1 <= k < |group| + 1 ensures |Flat((group + [sent])[..k])| + |(group + [sent])[k]| + 1 <= maxSize {
      PrefixOfAppend(group, sent, k);
      assert group[..|group|] == group;
    }
  }

  /** The next sentence goes into the open chunk. */
  lemma PackOn(sentences: seq<Text>, groups: seq<seq<Text>>, chunks: seq<Text>, group: seq<Text>, current: Text,
               sent: Text, maxSize: nat)
    requires PackingOpen(sentences, groups, chunks, group, current, maxSize) && sent != []
    requires current != [] ==> |current| + |sent| + 1 <= maxSize
    ensures PackingOpen(sentences + [sent], groups, chunks, group + [sent], current + sent, maxSize)
  {
    FlatAppend(group, sent);
    ConcatAppend(groups, group + [sent]);
    if group == [] {
      assert [] + [sent] == [sent] && [] + sent == sent;
    } else {
      ConcatAppend(groups, group);
      Associate(Concat(groups), group, [sent]);
      assert (groups + [group])[|groups|] == group && (chunks + [current])[|groups|] == current;
      FullMore(group, sent, maxSize);
      PackedOn(groups, chunks, group, current, sent, maxSize);
    }
  }

  lemma PackedOn(
      groups: seq<seq<Text>>, chunks: seq<Text>, group: seq<Text>, current: Text, sent: Text, maxSize: nat)
    requires group != [] && |chunks| == |groups|
    requires Packing(Concat(groups + [group]), groups + [group], chunks + [current], maxSize)
    requires Full(group + [sent], maxSize) && current + sent == Flat(group + [sent])
    ensures Packing(Concat(groups + [group + [sent]]), groups + [group + [sent]], chunks + [current + sent], maxSize)
  {
    var gs, cs := groups + [group], chunks + [current];
    var hs, ds := groups + [group + [sent]], chunks + [current + sent];
    forall i | 0 <= i < |hs| ensures Full(hs[i], maxSize) && ds[i] == Flat(hs[i]) {
      assert i < |groups| ==> hs[i] == gs[i] && ds[i] == cs[i];
    }
    forall i | 0 <= i < |hs| - 1 ensures |ds[i]| + |hs[i + 1][0]| + 1 > maxSize {
      assert ds[i] == cs[i] && hs[i + 1][0] == gs[i + 1][0];
    }
  }

  /** The next sentence opens a new chunk. */
  lemma PackNext(sentences: seq<Text>, groups: seq<seq<Text>>, chunks: seq<Text>, group: seq<Text>, current: Text,
                 sent: Text, maxSize: nat)
    requires PackingOpen(sentences, groups, chunks, group, current, maxSize) && sent != [] && current != []
    requires |current| + |sent| + 1 > maxSize
    ensures PackingOpen(sentences + [sent], groups + [group], chunks + [current], [sent], sent, maxSize)
  {
    ConcatAppend(groups + [group], [sent]);
    FlatAppend([], sent);
    assert [] + [sent] == [sent] && [] + sent == sent;
    var gs, cs := groups + [group] + [[sent]], chunks + [current] + [sent];
    forall i | 0 <= i < |gs| ensures Full(gs[i], maxSize) && cs[i] == Flat(gs[i]) {
      assert i < |gs| - 1 ==> gs[i] == (groups + [group])[i] && cs[i] == (chunks + [current])[i];
    }
    forall i | 0 <= i < |gs| - 1 ensures |cs[i]| + |gs[i + 1][0]| + 1 > maxSize {
      assert cs[i] == (chunks + [current])[i];
      assert i < |gs| - 2 ==> gs[i + 1] == (groups + [group])[i + 1];
    }
  }

  /** What has been taken in is packed, with all its ink. */
  predicate Gathering(
      taken: seq<Text>, groups: seq<seq<Text>>, chunks: seq<Text>, group: seq<Text>, current: Text, maxSize: nat)
  {
    && NonEmpty(chunks) && InkOf(chunks) + Ink(current) == InkOf(taken) && (current == [] || EndsInInk(current))
    && PackingOpen(Kept(taken), groups, chunks, group, current, maxSize)
  }

  lemma GatherBlank(taken: seq<Text>, groups: seq<seq<Text>>, chunks: seq<Text>, group: seq<Text>, current: Text,
                    text: Text, maxSize: nat)
    requires Gathering(taken, groups, chunks, group, current, maxSize) && Strip(text) == []
    ensures Gathering(taken + [text], groups, chunks, group, current, maxSize)
  {
    StripKeepsInk(text);
    InkOfAppend(taken, text);
    KeptAppend(taken, text);
    assert Kept(taken) + [] == Kept(taken) && InkOf(taken) + [] == InkOf(taken);
  }

  lemma GatherOn(taken: seq<Text>, groups: seq<seq<Text>>, chunks: seq<Text>, group: seq<Text>, current: Text,
                 text: Text, maxSize: nat)
    requires Gathering(taken, groups, chunks, group, current, maxSize) && Strip(text) != []
    requires current != [] ==> |current| + |Strip(text)| + 1 <= maxSize
    ensures Gathering(taken + [text], groups, chunks, group + [Strip(text)], current + Strip(text), maxSize)
  {
    StripKeepsInk(text);
    InkOfAppend(taken, text);
    KeptAppend(taken, text);
    InkConcat(current, Strip(text));
    Associate(InkOf(chunks), Ink(current), Ink(Strip(text)));
    PackOn(Kept(taken), groups, chunks, group, current, Strip(text), maxSize);
  }

  lemma GatherNext(taken: seq<Text>, groups: seq<seq<Text>>, chunks: seq<Text>, group: seq<Text>, current: Text,
                   text: Text, maxSize: nat)
    requires Gathering(taken, groups, chunks, group, current, maxSize) && Strip(text) != []
    requires current != [] && |current| + |Strip(text)| + 1 > maxSize
    ensures Gathering(taken + [text], groups + [group], chunks + [current], [Strip(text)], Strip(text), maxSize)
  {
    StripKeepsInk(text);
    InkOfAppend(taken, text);
    KeptAppend(taken, text);
    InkOfAppend(chunks, current);
    PackNext(Kept(taken), groups, chunks, group, current, Strip(text), maxSize);
  }

  /** Closing the open chunk, if there is one, ends the packing. */
  lemma GatherEnd(taken: seq<Text>, groups: seq<seq<Text>>, chunks: seq<Text>, group: seq<Text>, current: Text,
                  maxSize: nat)
    requires Gathering(taken, groups, chunks, group, current, maxSize)
    ensures Strip(current) != [] ==>
              && NonEmpty(chunks + [current]) && InkOf(chunks + [current]) == InkOf(taken)
              && Packing(Kept(taken), groups + [group], chunks + [current], maxSize)
    ensures Strip(current) == [] ==> InkOf(chunks) == InkOf(taken) && Packing(Kept(taken), groups, chunks, maxSize)
  {
    BlankIffNoInk(current);
    if group != [] {
      InkOfEnding(current);
      InkOfAppend(chunks, current);
    } else {
      assert InkOf(chunks) + [] == InkOf(chunks);
    }
  }

  /** Take in one sentence. */
  method AddSentence(chunks: seq<Text>, current: Text, text: Text, maxSize: nat, ghost taken: seq<Text>,
                     ghost groups: seq<seq<Text>>, ghost group: seq<Text>)
    returns (chunks': seq<Text>, current': Text, ghost groups': seq<seq<Text>>, ghost group': seq<Text>)
    requires Gathering(taken, groups, chunks, group, current, maxSize)
    ensures Gathering(taken + [text], groups', chunks', group', current', maxSize)
  {
    chunks', current', groups', group' := chunks, current, groups, group;
    var sent := Strip(text);
    if sent == [] {
      GatherBlank(taken, groups, chunks, group, current, text, maxSize);
      return;
    }
    if current != [] && |current| + |sent| + 1 > maxSize {
      GatherNext(taken, groups, chunks, group, current, text, maxSize);
      groups', group' := groups + [group], [sent];
      chunks' := chunks + [current];
      current' := sent;
    } else {
      GatherOn(taken, groups, chunks, group, current, text, maxSize);
      group' := group + [sent];
      current' := current + sent;
    }
  }

  /** Fill chunks with whole sentences; only a single long sentence makes a chunk too long. */
  method GatherSentences(sentences: seq<Text>, maxSize: nat)
    returns (chunks: seq<Text>, ghost groups: seq<seq<Text>>)
    ensures NonEmpty(chunks) && InkOf(chunks) == InkOf(sentences)
    ensures Packing(Kept(sentences), groups, chunks, maxSize)
  {
    chunks, groups := [], [];
    var current: Text := [];
    ghost var group: seq<Text> := [];
    for i := 0 to |sentences|
      invariant Gathering(sentences[..i], groups, chunks, group, current, maxSize)
    {
      assert sentences[..i + 1] == sentences[..i] + [sentences[i]];
      chunks, current, groups, group :=
        AddSentence(chunks, current, sentences[i], maxSize, sentences[..i], groups, group);
    }
    assert sentences[..|sentences|] == sentences;
    GatherEnd(sentences, groups, chunks, group, current, maxSize);
    if Strip(current) != [] {
      groups := groups + [group];
      chunks := chunks + [current];
    }
  }

  /** Each chunk stays whole if it fits, and is cut by count if not. */
  predicate CutUp(chunks: seq<Text>, parts: seq<seq<Text>>, final: seq<Text>, maxSize: nat) {
    && |parts| == |chunks| && Concat(parts) == final
    && forall i | 0 <= i < |chunks| ::
         if |chunks[i]| <= maxSize then parts[i] == [chunks[i]] else CutByCount(chunks[i], parts[i], maxSize)
  }

  lemma CutUpMore(chunks: seq<Text>, parts: seq<seq<Text>>, final: seq<Text>, chunk: Text, part: seq<Text>,
                  maxSize: nat)
    requires CutUp(chunks, parts, final, maxSize) && AllFit(final, maxSize) && AllFit(part, maxSize)
    requires InkOf(final) == InkOf(chunks) && InkOf(part) == Ink(chunk)
    requires if |chunk| <= maxSize then part == [chunk] else CutByCount(chunk, part, maxSize)
    ensures CutUp(chunks + [chunk], parts + [part], final + part, maxSize) && AllFit(final + part, maxSize)
    ensures InkOf(final + part) == InkOf(chunks + [chunk])
  {
    ConcatAppend(parts, part);
    InkOfConcat(final, part);
    InkOfAppend(chunks, chunk);
  }

  lemma InkOfOne(chunk: Text)
    ensures InkOf([chunk]) == Ink(chunk)
  {
    assert [chunk][1..] == [];
  }

  /** Cut whatever is too long by count. */
  method CutLong(chunks: seq<Text>, maxSize: nat) returns (final: seq<Text>, ghost parts: seq<seq<Text>>)
    requires maxSize > 0 && NonEmpty(chunks)
    ensures AllFit(final, maxSize) && InkOf(final) == InkOf(chunks) && CutUp(chunks, parts, final, maxSize)
  {
    final, parts := [], [];
    for i := 0 to |chunks|
      invariant AllFit(final, maxSize) && InkOf(final) == InkOf(chunks[..i])
      invariant CutUp(chunks[..i], parts, final, maxSize)
    {
      var chunk := chunks[i];
      assert chunks[..i + 1] == chunks[..i] + [chunk];
      if |chunk| > maxSize {
        SplitByCharsKeepsInk(chunk, maxSize);
        ByCountIs(chunk, maxSize);
        CutUpMore(chunks[..i], parts, final, chunk, SplitByChars(chunk, maxSize), maxSize);
        parts := parts + [SplitByChars(chunk, maxSize)];
        final := final + SplitByChars(chunk, maxSize);
      } else {
        InkOfOne(chunk);
        CutUpMore(chunks[..i], parts, final, chunk, [chunk], maxSize);
        parts := parts + [[chunk]];
        final := final + [chunk];
      }
    }
    assert chunks[..|chunks|] == chunks;
  }

  /** A text without sentence ends is cut by count; any other one is packed by its sentences that are not blank, and
      then what is still too long is cut by count. */
  ghost predicate BrokenUp(text: Text, final: seq<Text>, maxSize: nat) {
    if NoEnd(text) then CutByCount(text, final, maxSize)
    else exists sentences, groups, chunks, parts ::
           Sentences(text, sentences) && Packing(Kept(sentences), groups, chunks, maxSize)
           && CutUp(chunks, parts, final, maxSize)
  }

  /** Break one long paragraph at sentence ends, and what is still too long by count. */
  method SplitLongParagraph(text: Text, maxSize: nat) returns (final: seq<Text>)
    requires maxSize > 0
    ensures AllFit(final, maxSize) && InkOf(final) == Ink(text) && BrokenUp(text, final, maxSize)
  {
    var sentences := SplitSentences(text);
    SentencesAre(text);
    OneSentenceIff(text, sentences);
    if |sentences| <= 1 {
      SplitByCharsKeepsInk(text, maxSize);
      ByCountIs(text, maxSize);
      return SplitByChars(text, maxSize);
    }
    SplitSentencesKeepsInk(text);
    ghost var groups, parts;
    var chunks;
    chunks, groups := GatherSentences(sentences, maxSize);
    final, parts := CutLong(chunks, maxSize);
  }

  lemma OneSentenceIff(s: Text, pieces: seq<Text>)
    requires Sentences(s, pieces)
    ensures |pieces| == 1 <==> NoEnd(s)
  {
    var p := pieces[0];
    assert s == p + Flat(pieces[1..]);
    if |pieces| == 1 {
      assert Flat(pieces[1..]) == [] && s == p;
    } else {
      var end := |p| - 1;
      assert s[end] == p[end] && s[end] in SENTENCE_ENDS;
    }
  }
}
