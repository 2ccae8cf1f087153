/** Splitting a document's text into memory-sized chunks: every chunk fits, and no character of the text is lost,
    repeated out of turn or reordered. */
module Chunker {
  import opened Sequences
  import opened Utf8
  import opened Whitespace
  import opened ChunkSplits

  // ---- What is new in a chunk, and what is carried over ------------------

  /** The chunks' inks so far, last one outermost, each in two parts: the end of its predecessor, and what is new. */
  datatype Trail = Start | Then(before: Trail, carried: Text, own: Text)

  function LastInk(t: Trail): Text {
    match t
    case Start => []
    case Then(_, carried, own) => carried + own
  }

  /** `carried` is the end of `previous`, at most `overlap` characters of it. */
  predicate Repeats(previous: Text, carried: Text, overlap: int) {
    && |carried| <= |previous| && carried == previous[|previous| - |carried|..]
    && (carried == [] || |carried| <= overlap)
  }

  predicate Fair(t: Trail, overlap: int) {
    t.Start? || (Fair(t.before, overlap) && Repeats(LastInk(t.before), t.carried, overlap))
  }

  /** What is new, chunk after chunk. */
  function Own(t: Trail): Text {
    match t
    case Start => []
    case Then(before, _, own) => Own(before) + own
  }

  function Inks(t: Trail): seq<Text> {
    match t
    case Start => []
    case Then(before, carried, own) => Inks(before) + [carried + own]
  }

  function InksOf(chunks: seq<Text>): (r: seq<Text>)
    ensures |r| == |chunks|
  {
    seq(|chunks|, i requires 0 <= i < |chunks| => Ink(chunks[i]))
  }

  lemma InksOfAppend(chunks: seq<Text>, c: Text)
    ensures InksOf(chunks + [c]) == InksOf(chunks) + [Ink(c)]
  {
  }

  lemma AppendInjective(a: seq<Text>, x: Text, b: seq<Text>, y: Text)
    requires a + [x] == b + [y]
    ensures a == b && x == y
  {
    assert |a| == |b|;
    assert a == (a + [x])[..|a|] && b == (b + [y])[..|b|];
    assert x == (a + [x])[|a|] && y == (b + [y])[|b|];
  }

  /** Taking the last chunk off takes the last step off the trail. */
  lemma LastStep(chunks: seq<Text>, t: Trail)
    requires chunks != [] && InksOf(chunks) == Inks(t)
    ensures t.Then? && InksOf(chunks[..|chunks| - 1]) == Inks(t.before) && Ink(chunks[|chunks| - 1]) == LastInk(t)
  {
    var n := |chunks| - 1;
    assert chunks == chunks[..n] + [chunks[n]];
    InksOfAppend(chunks[..n], chunks[n]);
    AppendInjective(InksOf(chunks[..n]), Ink(chunks[n]), Inks(t.before), LastInk(t));
  }

  lemma {:induction false} InkShorter(s: Text)
    ensures |Ink(s)| <= |s|
  {
    if s != [] {
      InkShorter(s[1..]);
    }
  }

  lemma InkJoinLine(current: Text, para: Text)
    ensures Ink(current + [NEWLINE] + para) == Ink(current) + Ink(para)
  {
    InkConcat(current + [NEWLINE], para);
    InkConcat(current, [NEWLINE]);
    InkOfBlank(NEWLINE);
  }

  lemma EndRepeats(head: Text, tail: Text, overlap: int)
    requires |tail| <= overlap
    ensures Repeats(head + tail, tail, overlap)
  {
    assert (head + tail)[|head|..] == tail;
  }

  /** Starting the next chunk with the end of the finished one repeats the end of its ink. */
  lemma TailCarried(current: Text, para: Text, overlap: nat) returns (carried: Text)
    requires 0 < overlap < |current|
    ensures Repeats(Ink(current), carried, overlap)
    ensures Ink(current[|current| - overlap..] + [NEWLINE] + para) == carried + Ink(para)
  {
    var head, tail := current[..|current| - overlap], current[|current| - overlap..];
    InkSplit(current, |current| - overlap);
    InkJoinLine(tail, para);
    InkShorter(tail);
    EndRepeats(Ink(head), Ink(tail), overlap);
    carried := Ink(tail);
  }

  // ---- Chunking ----------------------------------------------------------

  /** Finished chunks and the one being filled, with their trail; `ink` is what has been taken in. */
  ghost predicate Filling(chunks: seq<Text>, current: Text, t: Trail, size: nat, overlap: int, ink: Text) {
    && AllFit(chunks, size) && |current| <= size
    && t.Then? && InksOf(chunks) == Inks(t.before) && Ink(current) == LastInk(t)
    && Fair(t, overlap) && Own(t) == ink
  }

  function Fresh(t: Trail): Trail {
    Then(t, [], [])
  }

  lemma NothingYet(size: nat, overlap: int)
    ensures Filling([], [], Fresh(Start), size, overlap, [])
  {
    assert Fair(Start, overlap);
    assert Repeats(LastInk(Start), [], overlap);
    assert Inks(Start) == [] && InksOf([]) == [];
  }

  /** Close the chunk being filled. */
  lemma Flushed(chunks: seq<Text>, current: Text, t: Trail, size: nat, overlap: int, ink: Text)
    requires Filling(chunks, current, t, size, overlap, ink) && current != []
    ensures Filling(chunks + [current], [], Fresh(t), size, overlap, ink)
  {
    InksOfAppend(chunks, current);
  }

  lemma Restarted(chunks: seq<Text>, next: Text, t: Trail, carried: Text, own: Text, size: nat, overlap: int, ink: Text)
    requires Filling(chunks, [], Fresh(t), size, overlap, ink) && |next| <= size
    requires Ink(next) == carried + own && Repeats(LastInk(t), carried, overlap)
    ensures Filling(chunks, next, Then(t, carried, own), size, overlap, ink + own)
  {
    assert Own(t) + [] == Own(t);
  }

  lemma RestartedAlone(chunks: seq<Text>, t: Trail, para: Text, size: nat, overlap: int, ink: Text)
    requires Filling(chunks, [], Fresh(t), size, overlap, ink) && |para| <= size
    ensures Filling(chunks, para, Then(t, [], Ink(para)), size, overlap, ink + Ink(para))
  {
    assert [] + Ink(para) == Ink(para);
    Restarted(chunks, para, t, [], Ink(para), size, overlap, ink);
  }

  lemma Joined(chunks: seq<Text>, current: Text, t: Trail, para: Text, size: nat, overlap: int, ink: Text)
    requires Filling(chunks, current, t, size, overlap, ink) && |current| + |para| + 1 <= size
    ensures Filling(chunks, current + [NEWLINE] + para, Then(t.before, t.carried, t.own + Ink(para)), size, overlap,
                    ink + Ink(para))
  {
    InkJoinLine(current, para);
    Associate(t.carried, t.own, Ink(para));
    Associate(Own(t.before), t.own, Ink(para));
  }

  lemma NothingPending(chunks: seq<Text>, t: Trail, size: nat, overlap: int, ink: Text)
    requires Filling(chunks, [], t, size, overlap, ink)
    ensures t == Fresh(t.before)
  {
  }

  lemma {:induction false} Extended(chunks: seq<Text>, t: Trail, pieces: seq<Text>, size: nat, overlap: int, ink: Text)
      returns (all: Trail)
    requires Filling(chunks, [], t, size, overlap, ink) && AllFit(pieces, size)
    ensures Filling(chunks + pieces, [], all, size, overlap, ink + InkOf(pieces))
    decreases |pieces|
  {
    if pieces == [] {
      assert chunks + pieces == chunks && ink + InkOf(pieces) == ink;
      all := t;
    } else {
      var piece := pieces[0];
      NothingPending(chunks, t, size, overlap, ink);
      RestartedAlone(chunks, t.before, piece, size, overlap, ink);
      Flushed(chunks, piece, Then(t.before, [], Ink(piece)), size, overlap, ink + Ink(piece));
      all := Extended(chunks + [piece], Fresh(Then(t.before, [], Ink(piece))), pieces[1..], size, overlap,
                      ink + Ink(piece));
      assert chunks + [piece] + pieces[1..] == chunks + pieces;
      Associate(ink, Ink(piece), InkOf(pieces[1..]));
    }
  }

  function Closed(chunks: seq<Text>, current: Text): seq<Text> {
    if current == [] then chunks else chunks + [current]
  }

  /** A paragraph goes into the chunk being filled as long as it fits there. */
  predicate Joins(current: Text, para: Text, maxSize: nat) {
    current == [] || |current| + |para| + 1 <= maxSize
  }

  /** Otherwise the next chunk starts with the end of this one, when that is shorter than it and still leaves room. */
  predicate Carries(current: Text, para: Text, maxSize: nat, overlap: int) {
    0 < overlap < |current| && overlap + 1 + |para| <= maxSize
  }

  /** Take in one stripped paragraph. */
  method AddParagraph(
      chunks: seq<Text>, current: Text, para: Text, maxSize: nat, overlap: int, ghost t: Trail, ghost ink: Text)
    returns (chunks': seq<Text>, current': Text, ghost t': Trail)
    requires maxSize > 0 && Filling(chunks, current, t, maxSize, overlap, ink)
    ensures Filling(chunks', current', t', maxSize, overlap, ink + Ink(para))
    ensures |para| > maxSize ==>
              var closed := Closed(chunks, current);
              && current' == [] && closed <= chunks'
              && AllFit(chunks'[|closed|..], maxSize) && InkOf(chunks'[|closed|..]) == Ink(para)
              && BrokenUp(para, chunks'[|closed|..], maxSize)
    ensures |para| <= maxSize && Joins(current, para, maxSize) ==>
              chunks' == chunks && current' == if current == [] then para else current + [NEWLINE] + para
    ensures |para| <= maxSize && !Joins(current, para, maxSize) ==>
              && chunks' == chunks + [current]
              && current' == if Carries(current, para, maxSize, overlap)
                             then current[|current| - overlap..] + [NEWLINE] + para else para
  {
    chunks', current', t' := chunks, current, t;
    if |para| > maxSize {
      if current != [] {
        Flushed(chunks, current, t, maxSize, overlap, ink);
        chunks', current', t' := chunks + [current], [], Fresh(t);
      }
      var pieces := SplitLongParagraph(para, maxSize);
      t' := Extended(chunks', t', pieces, maxSize, overlap, ink);
      chunks' := chunks' + pieces;
    } else if current != [] && |current| + |para| + 1 > maxSize {
      Flushed(chunks, current, t, maxSize, overlap, ink);
      chunks' := chunks + [current];
      if overlap > 0 && |current| > overlap {
        var candidate := current[|current| - overlap..] + [NEWLINE] + para;
        if |candidate| <= maxSize {
          ghost var carried := TailCarried(current, para, overlap);
          Restarted(chunks', candidate, t, carried, Ink(para), maxSize, overlap, ink);
          return chunks', candidate, Then(t, carried, Ink(para));
        }
      }
      RestartedAlone(chunks', t, para, maxSize, overlap, ink);
      current', t' := para, Then(t, [], Ink(para));
    } else if current != [] {
      Joined(chunks, current, t, para, maxSize, overlap, ink);
      current', t' := current + [NEWLINE] + para, Then(t.before, t.carried, t.own + Ink(para));
    } else {
      NothingPending(chunks, t, maxSize, overlap, ink);
      RestartedAlone(chunks, t.before, para, maxSize, overlap, ink);
      current', t' := para, Then(t.before, [], Ink(para));
    }
  }

  // ---- Which chunk starts how --------------------------------------------

  /** How the chunks come about, the last one outermost: paragraphs packed into one, after what was carried over; or one
      long paragraph cut to pieces. */
  datatype Plan =
    | Empty
    | Packed(before: Plan, carried: Text, paras: seq<Text>)
    | Cut(before: Plan, para: Text, pieces: seq<Text>)

  function Lines(paras: seq<Text>): Text {
    if paras == [] then []
    else if |paras| == 1 then paras[0]
    else Lines(paras[..|paras| - 1]) + [NEWLINE] + paras[|paras| - 1]
  }

  function Raw(carried: Text, paras: seq<Text>): Text {
    if carried == [] then Lines(paras) else carried + [NEWLINE] + Lines(paras)
  }

  function RawChunks(p: Plan): seq<Text> {
    match p
    case Empty => []
    case Packed(before, carried, paras) => RawChunks(before) + [Raw(carried, paras)]
    case Cut(before, _, pieces) => RawChunks(before) + pieces
  }

  function Paragraphs(p: Plan): seq<Text> {
    match p
    case Empty => []
    case Packed(before, _, paras) => Paragraphs(before) + paras
    case Cut(before, para, _) => Paragraphs(before) + [para]
  }

  predicate Trimmed(s: Text) {
    EndsInInk(s) && !IsBlank(s[0])
  }

  /** Each further paragraph was put where it fitted. */
  predicate PackedTight(carried: Text, paras: seq<Text>, maxSize: nat) {
    && paras != []
    && (forall k | 0 <= k < |paras| :: Trimmed(paras[k]) && |paras[k]| <= maxSize)
    && forall k | 1 <= k < |paras| :: |Raw(carried, paras[..k])| + |paras[k]| + 1 <= maxSize
  }

  /** What a chunk starting with `para` carries over: after a packed chunk that could not take `para`, exactly its last
      `overlap` characters if they are fewer than it has and leave room; otherwise, and after a cut paragraph,
      nothing. */
  predicate CarriedRight(before: Plan, carried: Text, para: Text, maxSize: nat, overlap: int) {
    match before
    case Packed(_, c, ps) =>
      var last := Raw(c, ps);
      && !Joins(last, para, maxSize)
      && carried == if Carries(last, para, maxSize, overlap) then last[|last| - overlap..] else []
    case _ => carried == []
  }

  ghost predicate Ruled(p: Plan, maxSize: nat, overlap: int) {
    match p
    case Empty => true
    case Packed(before, carried, paras) =>
      Ruled(before, maxSize, overlap) && PackedTight(carried, paras, maxSize)
      && CarriedRight(before, carried, paras[0], maxSize, overlap)
    case Cut(before, para, pieces) =>
      Ruled(before, maxSize, overlap) && |para| > maxSize && AllFit(pieces, maxSize) && BrokenUp(para, pieces, maxSize)
  }

  /** The plan accounts for the finished chunks and the one being filled. */
  predicate Accounts(p: Plan, chunks: seq<Text>, current: Text) {
    if current == [] then !p.Packed? && RawChunks(p) == chunks
    else p.Packed? && RawChunks(p.before) == chunks && Raw(p.carried, p.paras) == current
  }

  lemma AccountsAll(p: Plan, chunks: seq<Text>, current: Text)
    requires Accounts(p, chunks, current)
    ensures RawChunks(p) == Closed(chunks, current)
  {
  }

  lemma RawMore(carried: Text, paras: seq<Text>, para: Text)
    requires paras != []
    ensures Raw(carried, paras + [para]) == Raw(carried, paras) + [NEWLINE] + para
  {
    assert (paras + [para])[..|paras|] == paras;
    if carried != [] {
      var lines := Lines(paras);
      assert carried + [NEWLINE] + (lines + [NEWLINE] + para) == carried + [NEWLINE] + lines + [NEWLINE] + para;
    }
  }

  /** Every packed chunk ends in ink. */
  lemma RawEndsInInk(carried: Text, paras: seq<Text>, maxSize: nat)
    requires PackedTight(carried, paras, maxSize)
    ensures EndsInInk(Raw(carried, paras))
  {
    LinesTrimmed(paras);
  }

  lemma PlanJoin(p: Plan, para: Text, maxSize: nat, overlap: int) returns (n: Plan)
    requires Ruled(p, maxSize, overlap) && p.Packed? && Trimmed(para)
    requires |Raw(p.carried, p.paras)| + |para| + 1 <= maxSize
    ensures Ruled(n, maxSize, overlap) && n.Packed? && n.before == p.before
    ensures Raw(n.carried, n.paras) == Raw(p.carried, p.paras) + [NEWLINE] + para
    ensures Paragraphs(n) == Paragraphs(p) + [para]
  {
    var more := p.paras + [para];
    n := p.(paras := more);
    RawMore(p.carried, p.paras, para);
    forall k | 1 <= k < |more| ensures |Raw(p.carried, more[..k])| + |more[k]| + 1 <= maxSize {
      PrefixOfAppend(p.paras, para, k);
      assert p.paras[..|p.paras|] == p.paras;
    }
    Associate(Paragraphs(p.before), p.paras, [para]);
  }

  lemma PlanStart(p: Plan, carried: Text, para: Text, maxSize: nat, overlap: int) returns (n: Plan)
    requires Ruled(p, maxSize, overlap) && Trimmed(para) && |para| <= maxSize
    requires CarriedRight(p, carried, para, maxSize, overlap)
    ensures Ruled(n, maxSize, overlap) && n == Packed(p, carried, [para])
    ensures Raw(n.carried, n.paras) == if carried == [] then para else carried + [NEWLINE] + para
    ensures Paragraphs(n) == Paragraphs(p) + [para]
  {
    n := Packed(p, carried, [para]);
  }

  lemma PlanShort(p: Plan, chunks: seq<Text>, current: Text, para: Text, chunks': seq<Text>, current': Text,
                  maxSize: nat, overlap: int)
    returns (n: Plan)
    requires Ruled(p, maxSize, overlap) && Accounts(p, chunks, current) && Trimmed(para) && |para| <= maxSize
    requires Joins(current, para, maxSize) ==>
               chunks' == chunks && current' == if current == [] then para else current + [NEWLINE] + para
    requires !Joins(current, para, maxSize) ==>
               && chunks' == chunks + [current]
               && current' == if Carries(current, para, maxSize, overlap)
                              then current[|current| - overlap..] + [NEWLINE] + para else para
    ensures Ruled(n, maxSize, overlap) && Accounts(n, chunks', current') && Paragraphs(n) == Paragraphs(p) + [para]
  {
    if current == [] {
      n := PlanStart(p, [], para, maxSize, overlap);
    } else if Joins(current, para, maxSize) {
      n := PlanJoin(p, para, maxSize, overlap);
    } else {
      n := PlanAnew(p, chunks, current, para, maxSize, overlap);
    }
  }

  lemma PlanAnew(p: Plan, chunks: seq<Text>, current: Text, para: Text, maxSize: nat, overlap: int) returns (n: Plan)
    requires Ruled(p, maxSize, overlap) && Accounts(p, chunks, current) && Trimmed(para) && |para| <= maxSize
    requires !Joins(current, para, maxSize)
    ensures Ruled(n, maxSize, overlap) && Paragraphs(n) == Paragraphs(p) + [para]
    ensures Accounts(n, chunks + [current], if Carries(current, para, maxSize, overlap)
                                            then current[|current| - overlap..] + [NEWLINE] + para else para)
  {
    var carried := if Carries(current, para, maxSize, overlap) then current[|current| - overlap..] else [];
    AccountsAll(p, chunks, current);
    n := PlanStart(p, carried, para, maxSize, overlap);
  }

  lemma PlanLong(p: Plan, chunks: seq<Text>, current: Text, para: Text, chunks': seq<Text>, maxSize: nat, overlap: int)
    returns (n: Plan)
    requires Ruled(p, maxSize, overlap) && Accounts(p, chunks, current) && |para| > maxSize
    requires var closed := Closed(chunks, current);
             && closed <= chunks' && AllFit(chunks'[|closed|..], maxSize)
             && BrokenUp(para, chunks'[|closed|..], maxSize)
    ensures Ruled(n, maxSize, overlap) && Accounts(n, chunks', []) && Paragraphs(n) == Paragraphs(p) + [para]
  {
    var closed := Closed(chunks, current);
    AccountsAll(p, chunks, current);
    n := Cut(p, para, chunks'[|closed|..]);
    assert chunks' == closed + chunks'[|closed|..];
  }

  // ---- What neighbours share once they are stripped ----------------------

  /** The chunks as they are returned: stripped, and without the blank ones. */
  function Returned(p: Plan): seq<Text> {
    match p
    case Empty => []
    case Packed(before, carried, paras) => Returned(before) + [Strip(Raw(carried, paras))]
    case Cut(before, _, pieces) => Returned(before) + Kept(pieces)
  }

  /** What `last` passes on to a neighbour: its last `overlap` characters, from the first one on that is not blank. */
  function PassedOn(last: Text, overlap: int): Text
    requires 0 < overlap < |last|
  {
    StripLeft(last[|last| - overlap..])
  }

  /** `y` is `lines` after the end of the stripped `last`: all `overlap` characters of it exactly when the first of
      these is not blank, and fewer otherwise. */
  predicate StartsWithEnd(y: Text, last: Text, lines: Text, overlap: int)
    requires 0 < overlap < |last|
  {
    var x, k := Strip(last), |PassedOn(last, overlap)|;
    && 0 < k <= overlap && k <= |x| && y == x[|x| - k..] + [NEWLINE] + lines
    && (k == overlap <==> !IsBlank(last[|last| - overlap]))
  }

  /** The returned chunk `y` of paragraphs `paras` starts with the end of its returned predecessor exactly when an
      overlap was carried over; otherwise it is its own paragraphs and no more. */
  predicate SharesEnd(before: Plan, y: Text, paras: seq<Text>, maxSize: nat, overlap: int)
    requires paras != []
  {
    if before.Packed? && Carries(Raw(before.carried, before.paras), paras[0], maxSize, overlap)
    then StartsWithEnd(y, Raw(before.carried, before.paras), Lines(paras), overlap)
    else y == Lines(paras)
  }

  /** So it is with every packed chunk of a plan. */
  predicate AllShareEnds(p: Plan, maxSize: nat, overlap: int) {
    match p
    case Empty => true
    case Packed(before, carried, paras) =>
      && AllShareEnds(before, maxSize, overlap)
      && paras != [] && SharesEnd(before, Strip(Raw(carried, paras)), paras, maxSize, overlap)
    case Cut(before, _, _) => AllShareEnds(before, maxSize, overlap)
  }

  lemma {:induction false} StripLeftIsEnd(s: Text)
    ensures IsEnd(StripLeft(s), s)
  {
    if s != [] && IsBlank(s[0]) {
      StripLeftIsEnd(s[1..]);
    }
  }

  lemma {:induction false} StripLeftInk(s: Text, rest: Text)
    requires EndsInInk(s)
    ensures StripLeft(s) != [] && EndsInInk(StripLeft(s)) && StripLeft(s + rest) == StripLeft(s) + rest
  {
    if IsBlank(s[0]) {
      StripLeftInk(s[1..], rest);
      assert (s + rest)[1..] == s[1..] + rest;
    }
  }

  /** Stripping less of a text leaves no more. */
  lemma {:induction false} StripLeftOfEnd(s: Text, n: nat)
    requires n <= |s|
    ensures |StripLeft(s[n..])| <= |StripLeft(s)|
  {
    if n > 0 && IsBlank(s[0]) {
      StripLeftOfEnd(s[1..], n - 1);
      assert s[1..][n - 1..] == s[n..];
    }
  }

  lemma {:induction false} StripRightOfStripped(s: Text)
    requires s == [] || !IsBlank(s[|s| - 1])
    ensures StripRight(s) == s
  {
  }

  lemma StripOfEnding(s: Text, rest: Text)
    requires EndsInInk(s) && (rest == [] || EndsInInk(rest))
    ensures Strip(s + rest) == StripLeft(s) + rest && Strip(s + rest) != []
  {
    StripLeftInk(s, rest);
    StripRightOfStripped(StripLeft(s) + rest);
  }

  lemma {:induction false} LinesTrimmed(paras: seq<Text>)
    requires paras != [] && forall k | 0 <= k < |paras| :: Trimmed(paras[k])
    ensures Trimmed(Lines(paras))
  {
    if |paras| > 1 {
      LinesTrimmed(paras[..|paras| - 1]);
    }
  }

  lemma TrimmedStays(s: Text)
    requires Trimmed(s)
    ensures Strip(s) == s
  {
    assert StripLeft(s) == s;
    StripRightOfStripped(s);
  }

  /** What stripping makes of a chunk that starts with something carried over. */
  lemma StripCarried(last: Text, overlap: int, lines: Text)
    requires EndsInInk(last) && 0 < overlap < |last| && Trimmed(lines)
    ensures StartsWithEnd(Strip(last[|last| - overlap..] + [NEWLINE] + lines), last, lines, overlap)
  {
    var tail := last[|last| - overlap..];
    var rest := [NEWLINE] + lines;
    StripOfEnding(tail, rest);
    StripOfEnding(last, []);
    assert last + [] == last && StripLeft(last) + [] == StripLeft(last);
    assert tail + [NEWLINE] + lines == tail + rest;
    EndOfStripped(last, overlap);
  }

  predicate IsEnd(y: Text, s: Text) {
    |y| <= |s| && y == s[|s| - |y|..]
  }

  lemma EndOfEnd(z: Text, y: Text, s: Text)
    requires IsEnd(y, s)
    ensures IsEnd(z, y) <==> |z| <= |y| && IsEnd(z, s)
  {
  }

  lemma {:induction false} StripLeftKeepsEnding(s: Text)
    requires EndsInInk(s)
    ensures StripLeft(s) != []
  {
    if IsBlank(s[0]) {
      StripLeftKeepsEnding(s[1..]);
    }
  }

  lemma StripLeftWhole(s: Text)
    requires s != []
    ensures |StripLeft(s)| == |s| <==> !IsBlank(s[0])
  {
  }

  lemma EndOfStripped(last: Text, overlap: int)
    requires EndsInInk(last) && 0 < overlap < |last|
    ensures IsEnd(PassedOn(last, overlap), StripLeft(last)) && 0 < |PassedOn(last, overlap)| <= overlap
    ensures |PassedOn(last, overlap)| == overlap <==> !IsBlank(last[|last| - overlap])
  {
    var tail := last[|last| - overlap..];
    StripLeftWhole(tail);
    StripLeftKeepsEnding(tail);
    StripLeftIsEnd(tail);
    StripLeftIsEnd(last);
    StripLeftOfEnd(last, |last| - overlap);
    EndOfEnd(StripLeft(tail), tail, last);
    EndOfEnd(StripLeft(tail), StripLeft(last), last);
  }

  /** Stripping a packed chunk never drops it, and leaves of what it carries over what its predecessor passes on. */
  lemma ReturnedPacked(p: Plan, maxSize: nat, overlap: int)
    requires Ruled(p, maxSize, overlap) && p.Packed?
    ensures Strip(Raw(p.carried, p.paras)) != []
    ensures SharesEnd(p.before, Strip(Raw(p.carried, p.paras)), p.paras, maxSize, overlap)
  {
    LinesTrimmed(p.paras);
    TrimmedStays(Lines(p.paras));
    if p.before.Packed? && Carries(Raw(p.before.carried, p.before.paras), p.paras[0], maxSize, overlap) {
      var last := Raw(p.before.carried, p.before.paras);
      RawEndsInInk(p.before.carried, p.before.paras, maxSize);
      StripCarried(last, overlap, Lines(p.paras));
      assert p.carried == last[|last| - overlap..];
    } else {
      assert p.carried == [];
    }
  }

  lemma {:induction false} KeptConcat(a: seq<Text>, b: seq<Text>)
    ensures Kept(a + b) == Kept(a) + Kept(b)
  {
    if b == [] {
      assert a + b == a;
    } else {
      var front, c := b[..|b| - 1], b[|b| - 1];
      KeptConcat(a, front);
      KeptAppend(a + front, c);
      KeptAppend(front, c);
      SplitLast(b);
      Associate(a, front, [c]);
      Associate(Kept(a), Kept(front), KeptOf(c));
    }
  }

  /** The returned chunks are what is kept of the plan's, and what they share of their neighbours is exact. */
  lemma {:induction false} ReturnedKept(p: Plan, maxSize: nat, overlap: int)
    requires Ruled(p, maxSize, overlap)
    ensures Kept(RawChunks(p)) == Returned(p) && AllShareEnds(p, maxSize, overlap)
  {
    match p {
      case Empty =>
      case Packed(before, carried, paras) =>
        ReturnedKept(before, maxSize, overlap);
        ReturnedPacked(p, maxSize, overlap);
        KeptAppend(RawChunks(before), Raw(carried, paras));
      case Cut(before, _, pieces) =>
        ReturnedKept(before, maxSize, overlap);
        KeptConcat(RawChunks(before), pieces);
    }
  }

  predicate AllStripped(chunks: seq<Text>) {
    forall i | 0 <= i < |chunks| :: Strip(chunks[i]) == chunks[i]
  }

  /** Fill chunks paragraph by paragraph. */
  method FillChunks(paragraphs: seq<Text>, maxSize: nat, overlap: int)
    returns (chunks: seq<Text>, ghost t: Trail, ghost plan: Plan)
    requires maxSize > 0
    ensures AllFit(chunks, maxSize) && InksOf(chunks) == Inks(t)
    ensures Fair(t, overlap) && Own(t) == InkOf(paragraphs)
    ensures chunks == RawChunks(plan) && Ruled(plan, maxSize, overlap) && Paragraphs(plan) == Kept(paragraphs)
  {
    chunks, plan := [], Empty;
    var current: Text := [];
    ghost var filling := Fresh(Start);
    NothingYet(maxSize, overlap);
    for i := 0 to |paragraphs|
      invariant Filling(chunks, current, filling, maxSize, overlap, InkOf(paragraphs[..i]))
      invariant Ruled(plan, maxSize, overlap) && Accounts(plan, chunks, current)
      invariant Paragraphs(plan) == Kept(paragraphs[..i])
    {
      InkOfPrefix(paragraphs, i);
      KeptPrefix(paragraphs, i);
      StripKeepsInk(paragraphs[i]);
      var para := Strip(paragraphs[i]);
      if para != [] {
        chunks, current, filling, plan :=
          TakeIn(chunks, current, para, maxSize, overlap, filling, InkOf(paragraphs[..i]), plan);
      }
    }
    assert paragraphs[..|paragraphs|] == paragraphs;
    AccountsAll(plan, chunks, current);
    if current != [] {
      CurrentKept(plan, current, maxSize, overlap);
    }
    if Strip(current) != [] {
      Flushed(chunks, current, filling, maxSize, overlap, InkOf(paragraphs));
      return chunks + [current], filling, plan;
    }
    assert Own(filling.before) == Own(filling);
    t := filling.before;
  }

  lemma CurrentKept(plan: Plan, current: Text, maxSize: nat, overlap: int)
    requires Ruled(plan, maxSize, overlap) && plan.Packed? && current == Raw(plan.carried, plan.paras)
    ensures Strip(current) != []
  {
    RawEndsInInk(plan.carried, plan.paras, maxSize);
    InkOfEnding(current);
    BlankIffNoInk(current);
  }

  /** Take in one paragraph, and follow it in the plan. */
  method TakeIn(chunks: seq<Text>, current: Text, para: Text, maxSize: nat, overlap: int, ghost t: Trail,
                ghost ink: Text, ghost plan: Plan)
    returns (chunks': seq<Text>, current': Text, ghost t': Trail, ghost plan': Plan)
    requires maxSize > 0 && Filling(chunks, current, t, maxSize, overlap, ink)
    requires Ruled(plan, maxSize, overlap) && Accounts(plan, chunks, current) && Trimmed(para)
    ensures Filling(chunks', current', t', maxSize, overlap, ink + Ink(para))
    ensures Ruled(plan', maxSize, overlap) && Accounts(plan', chunks', current')
    ensures Paragraphs(plan') == Paragraphs(plan) + [para]
  {
    chunks', current', t' := AddParagraph(chunks, current, para, maxSize, overlap, t, ink);
    if |para| > maxSize {
      plan' := PlanLong(plan, chunks, current, para, chunks', maxSize, overlap);
    } else {
      plan' := PlanShort(plan, chunks, current, para, chunks', current', maxSize, overlap);
    }
  }

  lemma {:induction false} KeptOfBlank(texts: seq<Text>)
    requires InkOf(texts) == []
    ensures Kept(texts) == []
  {
    if texts != [] {
      var n := |texts| - 1;
      assert texts == texts[..n] + [texts[n]];
      InkOfAppend(texts[..n], texts[n]);
      KeptOfBlank(texts[..n]);
      KeptAppend(texts[..n], texts[n]);
      BlankIffNoInk(texts[n]);
    }
  }

  /** Split `text` into chunks of at most `maxSize` characters. Along the trail, what is new in each chunk adds up to
      the characters of the text, in order, and what comes before it is the carried-over end of the chunk before. The
      plan tells which paragraphs went into which chunk, and what exactly each chunk has of its predecessor. */
  method ChunkText(text: Text, maxSize: nat, overlap: int)
    returns (result: seq<Text>, ghost t: Trail, ghost plan: Plan)
    requires maxSize > 0
    ensures AllFit(result, maxSize) && AllStripped(result)
    ensures InksOf(result) == Inks(t) && Fair(t, overlap) && Own(t) == Ink(text)
    ensures overlap <= 0 ==> InkOf(result) == Ink(text)
    ensures result == Kept(RawChunks(plan)) == Returned(plan) && Ruled(plan, maxSize, overlap)
    ensures AllShareEnds(plan, maxSize, overlap) && Paragraphs(plan) == Kept(SplitParagraphs(text))
  {
    StripKeepsInk(text);
    SplitParagraphsKeepsInk(text);
    if Strip(text) == [] {
      KeptOfBlank(SplitParagraphs(text));
      return [], Start, Empty;
    }
    var chunks;
    chunks, t, plan := FillChunks(SplitParagraphs(text), maxSize, overlap);
    ReturnedKept(plan, maxSize, overlap);
    result, t := StripAll(chunks, maxSize, t, overlap);
    if overlap <= 0 {
      NoOverlap(result, t, overlap);
    }
  }

  lemma StripStripped(s: Text)
    ensures Strip(Strip(s)) == Strip(s)
  {
    var r := Strip(s);
    assert StripLeft(r) == r;
    StripRightOfStripped(r);
  }

  /** A kept chunk follows the kept ones as it followed its own predecessor, blank ones having nothing to carry over. */
  lemma KeptStep(t: Trail, before: Trail, overlap: int)
    requires Fair(t, overlap) && Fair(before, overlap) && before.Then? && Own(t) == Own(before.before)
    requires LastInk(t) == LastInk(before.before) || LastInk(before.before) == []
    ensures var n := Then(t, before.carried, before.own);
            && Fair(n, overlap) && Own(n) == Own(before) && LastInk(n) == LastInk(before)
            && Inks(n) == Inks(t) + [LastInk(before)]
  {
  }

  lemma BlankStep(before: Trail)
    requires before.Then? && LastInk(before) == []
    ensures Own(before) == Own(before.before)
  {
    assert before.own == [];
  }

  lemma AppendStripped(result: seq<Text>, kept: Text, maxSize: nat)
    requires AllFit(result, maxSize) && AllStripped(result) && 0 < |kept| <= maxSize && Strip(kept) == kept
    ensures AllFit(result + [kept], maxSize) && AllStripped(result + [kept])
  {
  }

  lemma KeptOne(result: seq<Text>, t: Trail, before: Trail, kept: Text, overlap: int)
    requires InksOf(result) == Inks(t) && Ink(kept) == LastInk(before)
    requires Fair(t, overlap) && Fair(before, overlap) && before.Then? && Own(t) == Own(before.before)
    requires LastInk(t) == LastInk(before.before) || LastInk(before.before) == []
    ensures var n := Then(t, before.carried, before.own);
            && InksOf(result + [kept]) == Inks(n)
            && Fair(n, overlap) && Own(n) == Own(before) && LastInk(n) == LastInk(before)
  {
    KeptStep(t, before, overlap);
    InksOfAppend(result, kept);
  }

  /** Strip every chunk and drop the blank ones, the last chunk of the trail first. */
  method StripAll(chunks: seq<Text>, maxSize: nat, ghost before: Trail, overlap: int)
    returns (result: seq<Text>, ghost t: Trail)
    requires AllFit(chunks, maxSize) && InksOf(chunks) == Inks(before) && Fair(before, overlap)
    ensures result == Kept(chunks) && AllFit(result, maxSize) && AllStripped(result)
    ensures InksOf(result) == Inks(t) && Fair(t, overlap) && Own(t) == Own(before)
    ensures LastInk(t) == LastInk(before) || LastInk(before) == []
    decreases |chunks|
  {
    if chunks == [] {
      return [], Start;
    }
    var n := |chunks| - 1;
    LastStep(chunks, before);
    result, t := StripAll(chunks[..n], maxSize, before.before, overlap);
    SplitLast(chunks);
    KeptAppend(chunks[..n], chunks[n]);
    StripKeepsInk(chunks[n]);
    var stripped := Strip(chunks[n]);
    if stripped != [] {
      StripStripped(chunks[n]);
      AppendStripped(result, stripped, maxSize);
      KeptOne(result, t, before, stripped, overlap);
      result, t := result + [stripped], Then(t, before.carried, before.own);
    } else {
      BlankStep(before);
    }
  }

  /** Without overlap nothing is carried over, and the chunks alone add up to the text. */
  lemma {:induction false} NoOverlap(chunks: seq<Text>, t: Trail, overlap: int)
    requires InksOf(chunks) == Inks(t) && Fair(t, overlap) && overlap <= 0
    ensures InkOf(chunks) == Own(t)
    decreases |chunks|
  {
    if chunks != [] {
      var n := |chunks| - 1;
      LastStep(chunks, t);
      NoOverlap(chunks[..n], t.before, overlap);
      InkOfAppend(chunks[..n], chunks[n]);
      assert chunks == chunks[..n] + [chunks[n]];
      assert [] + t.own == t.own;
    }
  }

  // ---- When neighbours share nothing -------------------------------------

  /** The last paragraph of a plan is that of its last node. */
  lemma LastOfPlan(p: Plan, maxSize: nat, overlap: int)
    requires Ruled(p, maxSize, overlap) && p != Empty
    ensures Paragraphs(p) != []
    ensures p.Cut? ==> |Paragraphs(p)[|Paragraphs(p)| - 1]| > maxSize
  {
    match p {
      case Packed(before, _, paras) => assert |Paragraphs(p)| == |Paragraphs(before)| + |paras|;
      case Cut(before, para, _) => assert Paragraphs(p)[|Paragraphs(before)|] == para;
    }
  }

  lemma NoParagraphsNoPlan(p: Plan, maxSize: nat, overlap: int)
    requires Ruled(p, maxSize, overlap) && Paragraphs(p) == []
    ensures p == Empty
  {
    if p != Empty {
      LastOfPlan(p, maxSize, overlap);
    }
  }

  /** The plan of a text whose last paragraph is short ends in a packed chunk with that paragraph. */
  lemma LastParagraph(p: Plan, front: seq<Text>, a: Text, maxSize: nat, overlap: int)
    requires Ruled(p, maxSize, overlap) && Paragraphs(p) == front + [a] && |a| <= maxSize
    ensures p.Packed? && p.paras != [] && p.paras[|p.paras| - 1] == a
    ensures Paragraphs(p.before) + p.paras[..|p.paras| - 1] == front
  {
    LastOfPlan(p, maxSize, overlap);
    assert Paragraphs(p)[|front|] == a;
    var n := |p.paras| - 1;
    assert Paragraphs(p)[..|front|] == Paragraphs(p.before) + p.paras[..n];
  }

  lemma OneParagraph(p: Plan, a: Text, maxSize: nat, overlap: int)
    requires Ruled(p, maxSize, overlap) && Paragraphs(p) == [a] && |a| <= maxSize
    ensures p == Packed(Empty, [], [a])
  {
    assert [] + [a] == [a];
    LastParagraph(p, [], a, maxSize, overlap);
    NoParagraphsNoPlan(p.before, maxSize, overlap);
    assert p.paras == [a];
  }

  lemma TwoNodes(p: Plan, a: Text, b: Text, maxSize: nat, overlap: int)
    requires Ruled(p, maxSize, overlap) && Paragraphs(p) == [a, b]
    requires |a| <= maxSize && |b| <= maxSize < |a| + |b| + 1
    ensures p.Packed? && p.paras == [b] && p.before == Packed(Empty, [], [a])
  {
    assert [a] + [b] == [a, b];
    LastParagraph(p, [a], b, maxSize, overlap);
    if |p.paras| > 1 {
      BothPacked(p, a, b, maxSize, overlap);
    } else {
      assert p.paras[..|p.paras| - 1] == [];
      assert Paragraphs(p.before) == [a];
      OneParagraph(p.before, a, maxSize, overlap);
    }
  }

  /** Two paragraphs that fit a chunk each but not together. The second chunk carries over the first one's last
      `overlap` characters exactly when these are fewer than it has and leave room for the second paragraph; of these
      it is returned with all from the first one on that is not blank. */
  lemma TwoParagraphs(p: Plan, a: Text, b: Text, maxSize: nat, overlap: int)
    requires Ruled(p, maxSize, overlap) && Paragraphs(p) == [a, b]
    requires |a| <= maxSize && |b| <= maxSize < |a| + |b| + 1
    ensures Returned(p) == [a, if Carries(a, b, maxSize, overlap) then PassedOn(a, overlap) + [NEWLINE] + b else b]
    ensures Carries(a, b, maxSize, overlap) ==>
              var k := |PassedOn(a, overlap)|;
              && 0 < k <= overlap && PassedOn(a, overlap) == a[|a| - k..]
              && (k == overlap <==> !IsBlank(a[|a| - overlap]))
  {
    TwoNodes(p, a, b, maxSize, overlap);
    TwoReturned(p, a, b, maxSize, overlap);
    if Carries(a, b, maxSize, overlap) {
      EndPassedOn(a, Returned(p)[1], b, overlap);
    }
  }

  lemma TwoReturned(p: Plan, a: Text, b: Text, maxSize: nat, overlap: int)
    requires Ruled(p, maxSize, overlap) && p.Packed? && p.paras == [b] && p.before == Packed(Empty, [], [a])
    ensures Trimmed(a) && |Returned(p)| == 2 && Returned(p)[0] == a
    ensures if Carries(a, b, maxSize, overlap)
            then StartsWithEnd(Returned(p)[1], a, b, overlap) else Returned(p)[1] == b
  {
    assert Lines([a]) == a && Lines([b]) == b && Raw([], [a]) == a;
    assert Trimmed([a][0]);
    TrimmedStays(a);
    ReturnedPacked(p, maxSize, overlap);
    assert Returned(p.before) == [] + [a];
  }

  lemma EndPassedOn(a: Text, y: Text, b: Text, overlap: int)
    requires Trimmed(a) && 0 < overlap < |a| && StartsWithEnd(y, a, b, overlap)
    ensures y == PassedOn(a, overlap) + [NEWLINE] + b
    ensures var k := |PassedOn(a, overlap)|;
            && 0 < k <= overlap && PassedOn(a, overlap) == a[|a| - k..]
            && (k == overlap <==> !IsBlank(a[|a| - overlap]))
  {
    TrimmedStays(a);
    StripLeftIsEnd(a[|a| - overlap..]);
    EndOfEnd(PassedOn(a, overlap), a[|a| - overlap..], a);
  }

  lemma BothPacked(p: Plan, a: Text, b: Text, maxSize: nat, overlap: int)
    requires Ruled(p, maxSize, overlap) && p.Packed? && |p.paras| > 1 && p.paras[|p.paras| - 1] == b
    requires Paragraphs(p.before) + p.paras[..|p.paras| - 1] == [a]
    ensures |a| + |b| + 1 <= maxSize
  {
    assert |Paragraphs(p.before)| + |p.paras| - 1 == 1;
    NoParagraphsNoPlan(p.before, maxSize, overlap);
    assert p.paras[..1] == [a];
  }

  predicate IsLine(s: Text) {
    Trimmed(s) && forall i | 0 <= i < |s| :: s[i] != NEWLINE
  }

  lemma {:induction false} OneLine(s: Text)
    requires forall i | 0 <= i < |s| :: s[i] != NEWLINE
    ensures SplitLines(s) == [s] && SplitBlankLines(s) == [s]
  {
    if s != [] {
      OneLine(s[1..]);
      assert [s[0]] + s[1..] == s;
      assert [s[1..]][1..] == [];
    }
  }

  lemma {:induction false} LineThenRest(s: Text, rest: Text)
    requires forall i | 0 <= i < |s| :: s[i] != NEWLINE
    ensures SplitLines(s + [NEWLINE] + rest) == [s] + SplitLines(rest)
    ensures rest != [] && rest[0] != NEWLINE && |SplitBlankLines(rest)| == 1 ==>
              |SplitBlankLines(s + [NEWLINE] + rest)| == 1
  {
    var all := s + [NEWLINE] + rest;
    if s == [] {
      assert all[0] == NEWLINE && all[1..] == rest;
    } else {
      LineThenRest(s[1..], rest);
      assert all[0] == s[0] && all[1..] == s[1..] + [NEWLINE] + rest;
      assert [s[0]] + s[1..] == s;
      assert ([s[1..]] + SplitLines(rest))[1..] == SplitLines(rest);
    }
  }

  lemma KeptTwo(a: Text, b: Text)
    requires Trimmed(a) && Trimmed(b)
    ensures Kept([a, b]) == [a, b]
  {
    TrimmedStays(a);
    TrimmedStays(b);
    assert [a, b][1..] == [b] && [b][1..] == [];
    assert Kept([b]) == [b];
  }

  lemma TwoLines(a: Text, b: Text)
    requires IsLine(a) && IsLine(b)
    ensures Kept(SplitParagraphs(a + [NEWLINE] + b)) == [a, b]
  {
    OneLine(b);
    LineThenRest(a, b);
    KeptTwo(a, b);
    assert [a] + [b] == [a, b];
  }

  /** Two lines that do not go together. */
  method ChunkTwoLines(a: Text, b: Text, maxSize: nat, overlap: int) returns (result: seq<Text>)
    requires IsLine(a) && IsLine(b) && |a| <= maxSize && |b| <= maxSize < |a| + |b| + 1
    ensures result == [a, if 0 < overlap < |a| && overlap + 1 + |b| <= maxSize
                          then PassedOn(a, overlap) + [10] + b else b]
  {
    ghost var t, plan;
    result, t, plan := ChunkText(a + [NEWLINE] + b, maxSize, overlap);
    TwoLines(a, b);
    TwoParagraphs(plan, a, b, maxSize, overlap);
  }

  /** Three letters, a line end, three letters; chunks of four with an overlap of one: the neighbours share nothing. */
  method NothingShared() returns (result: seq<Text>)
    ensures result == [[97, 98, 99], [100, 101, 102]]
  {
    result := ChunkTwoLines([97, 98, 99], [100, 101, 102], 4, 1);
  }

  lemma LetterPassedOn(a: CodePoint, space: CodePoint, b: CodePoint)
    requires IsBlank(space) && !IsBlank(b)
    ensures PassedOn([a, space, b], 2) == [b]
  {
    assert [a, space, b][1..] == [space, b] && [space, b][1..] == [b];
    assert StripLeft([b]) == [b];
  }

  /** Two words, a line end, a third word; chunks of five with an overlap of two: the neighbours share one character,
      for the other one of the two is the space between the words. */
  method OverlapCutShort() returns (result: seq<Text>)
    ensures result == [[97, 32, 98], [98, NEWLINE, 99, 100]]
  {
    LetterPassedOn(97, 32, 98);
    assert [98] + [NEWLINE] + [99, 100] == [98, NEWLINE, 99, 100];
    result := ChunkTwoLines([97, 32, 98], [99, 100], 5, 2);
  }
}
