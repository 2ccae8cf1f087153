/** Cutting a fetched page down to the blocks that matter for a query, within a byte budget. */
module Excerpt {
  import opened Sequences
  import opened Utf8
  import opened Whitespace

  const NEWLINE: CodePoint := 10

  /** How much of a page is looked at, in bytes. */
  const RAW_MAX_BYTES: nat := 128 * 1024

  /** What the excerpt asks of a block: whether it is boilerplate, and how well it matches the query's terms. */
  datatype Judge = Judge(isBoilerplate: Text -> bool, matches: Text -> nat)

  // ---- Blocks ------------------------------------------------------------

  function BlankRun(s: Text): (n: nat)
    ensures n <= |s| && forall i | 0 <= i < n :: IsBlank(s[i])
  {
    if s == [] || !IsBlank(s[0]) then 0 else 1 + BlankRun(s[1..])
  }

  /** One past the last newline. */
  function LastNewline(s: Text): (n: nat)
    ensures n <= |s|
  {
    if s == [] then 0 else if s[|s| - 1] == NEWLINE then |s| else LastNewline(s[..|s| - 1])
  }

  /** The length of the block separator at the front: from a newline to the last newline of the white space after it. */
  function Separator(s: Text): (n: nat)
    ensures n <= |s| && forall i | 0 <= i < n :: IsBlank(s[i])
  {
    if s == [] || s[0] != NEWLINE then 0
    else
      var end := LastNewline(s[..BlankRun(s)]);
      if end >= 2 then end else 0
  }

  function SplitBlocks(s: Text): (r: seq<Text>)
    ensures r != []
    decreases |s|
  {
    if s == [] then [[]]
    else if Separator(s) > 0 then [[]] + SplitBlocks(s[Separator(s)..])
    else Cons(s[0], SplitBlocks(s[1..]))
  }

  function Blocks(s: Text): seq<Text> {
    Kept(SplitBlocks(s))
  }

  function Join(blocks: seq<Text>): Text {
    if blocks == [] then []
    else if |blocks| == 1 then blocks[0]
    else Join(blocks[..|blocks| - 1]) + [NEWLINE, NEWLINE] + blocks[|blocks| - 1]
  }

  // ---- Choosing blocks ---------------------------------------------------

  /** The blocks at the indices kept, in order. */
  function Keep(blocks: seq<Text>, keep: set<nat>): seq<Text> {
    if blocks == [] then []
    else
      var n := |blocks| - 1;
      Keep(blocks[..n], keep) + if n in keep then [blocks[n]] else []
  }

  function Informative(judge: Judge, blocks: seq<Text>): seq<Text> {
    Keep(blocks, set i | 0 <= i < |blocks| && !judge.isBoilerplate(blocks[i]))
  }

  function Score(judge: Judge, block: Text): nat {
    var matched := judge.matches(block);
    if matched == 0 then 0
    else matched + (if block != [] && block[0] == '#' as int then 4 else 0) + if |block| >= 120 then 1 else 0
  }

  datatype Scored = Scored(score: nat, index: nat)

  predicate Better(a: Scored, b: Scored) {
    a.score > b.score || (a.score == b.score && a.index < b.index)
  }

  function ScoreAll(judge: Judge, blocks: seq<Text>): (r: seq<Scored>)
    ensures |r| == |blocks|
    ensures forall i | 0 <= i < |r| :: r[i].index == i
  {
    seq(|blocks|, i requires 0 <= i < |blocks| => Scored(Score(judge, blocks[i]), i))
  }

  method ScoreBlocks(judge: Judge, blocks: seq<Text>) returns (scored: seq<Scored>)
    ensures scored == ScoreAll(judge, blocks)
  {
    scored := [];
    for i := 0 to |blocks|
      invariant scored == ScoreAll(judge, blocks[..i])
    {
      scored := scored + [Scored(Score(judge, blocks[i]), i)];
    }
    assert blocks[..|blocks|] == blocks;
  }

  function Relevant(scored: seq<Scored>): (r: seq<Scored>)
    ensures forall x :: x in r <==> x in scored && x.score > 0
  {
    if scored == [] then []
    else
      assert scored == [scored[0]] + scored[1..];
      (if scored[0].score > 0 then [scored[0]] else []) + Relevant(scored[1..])
  }

  /** The blocks that match at all, or every block when none does. */
  function Candidates(scored: seq<Scored>): seq<Scored> {
    if Relevant(scored) == [] then scored else Relevant(scored)
  }

  function Insert(x: Scored, order: seq<Scored>): (r: seq<Scored>)
    ensures |r| == |order| + 1
    ensures forall y :: y in r <==> y == x || y in order
  {
    if order == [] || !Better(order[0], x) then [x] + order
    else
      assert order == [order[0]] + order[1..];
      [order[0]] + Insert(x, order[1..])
  }

  function Sort(items: seq<Scored>): (r: seq<Scored>)
    ensures |r| == |items|
    ensures forall y :: y in r <==> y in items
  {
    if items == [] then []
    else
      assert items == [items[0]] + items[1..];
      Insert(items[0], Sort(items[1..]))
  }

  /** The eight best of them. */
  function Best(items: seq<Scored>): (r: seq<Scored>)
    ensures |r| == if |items| <= 8 then |items| else 8
    ensures forall y | y in r :: y in items
  {
    if |items| <= 8 then Sort(items) else Sort(items)[..8]
  }

  predicate BestFirst(order: seq<Scored>) {
    forall a, b | 0 <= a < b < |order| :: !Better(order[b], order[a])
  }

  lemma {:induction false} InsertBestFirst(x: Scored, order: seq<Scored>)
    requires BestFirst(order)
    ensures BestFirst(Insert(x, order))
  {
    if order == [] {
    } else if Better(order[0], x) {
      InsertBestFirst(x, order[1..]);
      var r := Insert(x, order[1..]);
      forall b | 0 <= b < |r| ensures !Better(r[b], order[0]) {
        assert r[b] in r;
        assert r[b] == x || r[b] in order[1..];
      }
    } else {
      forall b | 0 <= b < |order| ensures !Better(order[b], x) {
      }
    }
  }

  lemma {:induction false} SortBestFirst(items: seq<Scored>)
    ensures BestFirst(Sort(items))
  {
    if items != [] {
      SortBestFirst(items[1..]);
      InsertBestFirst(items[0], Sort(items[1..]));
    }
  }

  /** No candidate left out beats one that is kept. */
  lemma BestAreBest(items: seq<Scored>, kept: Scored, out: Scored)
    requires kept in Best(items) && out in items && out !in Best(items)
    ensures !Better(out, kept)
  {
    SortBestFirst(items);
    var order := Sort(items);
    var a :| 0 <= a < |Best(items)| && Best(items)[a] == kept;
    var b :| 0 <= b < |order| && order[b] == out;
    assert order[a] == kept;
    assert b >= |Best(items)|;
  }

  function Selected(judge: Judge, informative: seq<Text>): seq<Text> {
    var best := Best(Candidates(ScoreAll(judge, informative)));
    Keep(informative, set x | x in best :: x.index)
  }

  // ---- The excerpt -------------------------------------------------------

  /** The excerpt of the part of a page that is looked at. */
  function ExcerptOfBounded(judge: Judge, bounded: Text, maxBytes: nat): Option<(Text, bool)> {
    var blocks := Blocks(bounded);
    var informative := Informative(judge, blocks);
    if informative == [] then
      match Truncate(bounded, maxBytes)
      case None => None
      case Some((excerpt, cut)) => Some((Strip(excerpt), cut))
    else if |Encode(Join(informative))| <= maxBytes then
      Some((Join(informative), |informative| < |blocks|))
    else
      var selected := Selected(judge, informative);
      match Truncate(Join(selected), maxBytes)
      case None => None
      case Some((excerpt, cut)) => Some((Strip(excerpt), cut || |selected| < |informative|))
  }

  /** The excerpt of a page, and whether something was left out; none when the page cannot be encoded. */
  function RelevantExcerpt(judge: Judge, markdown: Text, maxBytes: nat): Option<(Text, bool)> {
    match Truncate(Strip(markdown), RAW_MAX_BYTES)
    case None => None
    case Some((bounded, rawCut)) =>
      match ExcerptOfBounded(judge, bounded, maxBytes)
      case None => None
      case Some((excerpt, cut)) => Some((excerpt, rawCut || cut))
  }

  // ---- What is kept ------------------------------------------------------

  lemma {:induction false} BlanksHaveNoInk(s: Text)
    requires forall i | 0 <= i < |s| :: IsBlank(s[i])
    ensures Ink(s) == []
  {
    if s != [] {
      BlanksHaveNoInk(s[1..]);
    }
  }

  lemma {:induction false} SplitBlocksKeepsInk(s: Text)
    ensures InkOf(SplitBlocks(s)) == Ink(s)
    decreases |s|
  {
    if s == [] {
      InkOfEmptyFirst([]);
    } else if Separator(s) > 0 {
      var n := Separator(s);
      SplitBlocksKeepsInk(s[n..]);
      InkSplit(s, n);
      BlanksHaveNoInk(s[..n]);
      InkOfEmptyFirst(SplitBlocks(s[n..]));
    } else {
      SplitBlocksKeepsInk(s[1..]);
      InkSplit(s, 1);
      assert s[..1] == [s[0]];
      InkOfCons(s[0], SplitBlocks(s[1..]));
    }
  }

  lemma {:induction false} InkOfJoin(blocks: seq<Text>)
    ensures Ink(Join(blocks)) == InkOf(blocks)
  {
    if |blocks| == 1 {
      InkOfAppend([], blocks[0]);
      assert [] + [blocks[0]] == blocks;
    } else if |blocks| > 1 {
      var n := |blocks| - 1;
      InkOfJoin(blocks[..n]);
      assert blocks == blocks[..n] + [blocks[n]];
      InkOfAppend(blocks[..n], blocks[n]);
      BlanksHaveNoInk([NEWLINE, NEWLINE]);
      InkConcat(Join(blocks[..n]) + [NEWLINE, NEWLINE], blocks[n]);
      InkConcat(Join(blocks[..n]), [NEWLINE, NEWLINE]);
    }
  }

  predicate NoTrailingBlank(s: Text) {
    s == [] || !IsBlank(s[|s| - 1])
  }

  lemma {:induction false} InkSize(s: Text)
    ensures |Ink(s)| <= |s|
    ensures s != [] && NoTrailingBlank(s) ==> |Ink(s)| > 0
  {
    if s != [] {
      InkSize(s[1..]);
    }
  }

  /** Cutting a text that ends in ink loses ink. */
  lemma PrefixInk(p: Text, s: Text)
    requires p <= s
    ensures |Ink(p)| <= |Ink(s)|
    ensures p != s && NoTrailingBlank(s) ==> |Ink(p)| < |Ink(s)|
  {
    InkSplit(s, |p|);
    assert s[..|p|] == p;
    InkSize(s[|p|..]);
  }

  predicate AllInked(blocks: seq<Text>) {
    forall i | 0 <= i < |blocks| :: blocks[i] != [] && NoTrailingBlank(blocks[i])
  }

  lemma {:induction false} KeepSome(blocks: seq<Text>, keep: set<nat>)
    requires AllInked(blocks)
    ensures AllInked(Keep(blocks, keep)) && |Keep(blocks, keep)| <= |blocks|
    ensures |Keep(blocks, keep)| == |blocks| ==> Keep(blocks, keep) == blocks
  {
    if blocks != [] {
      var n := |blocks| - 1;
      KeepSome(blocks[..n], keep);
      assert blocks == blocks[..n] + [blocks[n]];
    }
  }

  /** Every block left out takes ink with it. */
  lemma {:induction false} KeepInk(blocks: seq<Text>, keep: set<nat>)
    requires AllInked(blocks)
    ensures |InkOf(Keep(blocks, keep))| + |blocks| - |Keep(blocks, keep)| <= |InkOf(blocks)|
  {
    if blocks != [] {
      var n := |blocks| - 1;
      KeepInk(blocks[..n], keep);
      assert blocks == blocks[..n] + [blocks[n]];
      InkOfAppend(blocks[..n], blocks[n]);
      InkSize(blocks[n]);
      if n in keep {
        InkOfAppend(Keep(blocks[..n], keep), blocks[n]);
      } else {
        assert Keep(blocks, keep) == Keep(blocks[..n], keep);
      }
    }
  }

  lemma {:induction false} JoinEndsInInk(blocks: seq<Text>)
    requires AllInked(blocks)
    ensures NoTrailingBlank(Join(blocks))
  {
  }

  // ---- Where the text is split -------------------------------------------

  /** White space from one newline to another. */
  predicate IsSeparator(s: Text) {
    && |s| >= 2 && s[0] == NEWLINE && s[|s| - 1] == NEWLINE
    && forall i | 0 <= i < |s| :: IsBlank(s[i])
  }

  lemma {:induction false} BlankRunIsLongest(s: Text, n: nat)
    requires n <= |s| && forall i | 0 <= i < n :: IsBlank(s[i])
    ensures n <= BlankRun(s)
  {
    if n > 0 {
      assert forall i | 0 <= i < n - 1 :: s[1..][i] == s[i + 1];
      BlankRunIsLongest(s[1..], n - 1);
    }
  }

  lemma {:induction false} LastNewlineIsLast(s: Text)
    ensures LastNewline(s) > 0 ==> s[LastNewline(s) - 1] == NEWLINE
    ensures forall i | LastNewline(s) <= i < |s| :: s[i] != NEWLINE
  {
    if s != [] && s[|s| - 1] != NEWLINE {
      LastNewlineIsLast(s[..|s| - 1]);
    }
  }

  /** A separator is found exactly where there is one, and then it is the longest there. */
  lemma SeparatorIsLongest(s: Text, k: nat)
    requires k <= |s|
    ensures Separator(s) > 0 ==> IsSeparator(s[..Separator(s)])
    ensures IsSeparator(s[..k]) ==> k <= Separator(s)
  {
    var run := s[..BlankRun(s)];
    LastNewlineIsLast(run);
    if IsSeparator(s[..k]) {
      assert forall i | 0 <= i < k :: s[i] == s[..k][i];
      BlankRunIsLongest(s, k);
      assert run[k - 1] == NEWLINE;
    }
  }

  predicate StartsSeparator(s: Text) {
    exists k | 0 <= k <= |s| :: IsSeparator(s[..k])
  }

  predicate LongestSeparator(s: Text, n: nat) {
    n <= |s| && IsSeparator(s[..n]) && forall k | n < k <= |s| :: !IsSeparator(s[..k])
  }

  /** The text is cut at its separators, from left to right and each as long as it goes: no separator starts within a
      piece. */
  ghost predicate CutAtSeparators(s: Text, pieces: seq<Text>)
    decreases |pieces|, 0
  {
    && pieces != [] && pieces[0] <= s
    && (forall i | 0 <= i < |pieces[0]| :: !StartsSeparator(s[i..]))
    && CutThere(s[|pieces[0]|..], pieces[1..])
  }

  /** What follows a piece: nothing, or a separator and the other pieces. */
  ghost predicate CutThere(rest: Text, pieces: seq<Text>)
    decreases |pieces|, 1
  {
    if pieces == [] then rest == []
    else exists n | 0 <= n <= |rest| :: LongestSeparator(rest, n) && CutAtSeparators(rest[n..], pieces)
  }

  lemma CutLonger(s: Text, pieces: seq<Text>)
    requires s != [] && !StartsSeparator(s) && CutAtSeparators(s[1..], pieces)
    ensures CutAtSeparators(s, Cons(s[0], pieces))
  {
    var rest, more := s[1..], Cons(s[0], pieces);
    assert more[0] == [s[0]] + pieces[0] && more[1..] == pieces[1..];
    assert s == [s[0]] + rest;
    forall i | 0 <= i < |more[0]| ensures !StartsSeparator(s[i..]) {
      assert s[i..] == if i > 0 then rest[i - 1..] else s;
    }
    assert s[|more[0]|..] == rest[|pieces[0]|..];
  }

  lemma {:induction false} SplitBlocksCuts(s: Text)
    ensures CutAtSeparators(s, SplitBlocks(s))
    decreases |s|
  {
    if s != [] {
      forall k | 0 <= k <= |s| ensures IsSeparator(s[..k]) ==> k <= Separator(s) {
        SeparatorIsLongest(s, k);
      }
      SeparatorIsLongest(s, 0);
      var n := Separator(s);
      if n > 0 {
        SplitBlocksCuts(s[n..]);
        var pieces := [[]] + SplitBlocks(s[n..]);
        assert pieces[0] == [] && pieces[1..] == SplitBlocks(s[n..]) && s[0..] == s;
        assert LongestSeparator(s, n);
      } else {
        SplitBlocksCuts(s[1..]);
        CutLonger(s, SplitBlocks(s[1..]));
      }
    }
  }

  // ---- Which blocks make the excerpt -------------------------------------

  /** The blocks with an empty line between one and the next. */
  ghost function Woven(blocks: seq<Text>): Text {
    if blocks == [] then [] else if |blocks| == 1 then blocks[0] else blocks[0] + [10, 10] + Woven(blocks[1..])
  }

  lemma {:induction false} WovenAppend(blocks: seq<Text>, last: Text)
    requires blocks != []
    ensures Woven(blocks + [last]) == Woven(blocks) + [10, 10] + last
  {
    if |blocks| == 1 {
      assert (blocks + [last])[1..] == [last];
    } else {
      WovenAppend(blocks[1..], last);
      assert (blocks + [last])[1..] == blocks[1..] + [last];
      Associate(blocks[0] + [10, 10], Woven(blocks[1..]) + [10, 10], last);
      Associate(blocks[0] + [10, 10], Woven(blocks[1..]), [10, 10]);
    }
  }

  lemma {:induction false} JoinIsWoven(blocks: seq<Text>)
    ensures Join(blocks) == Woven(blocks)
  {
    if |blocks| > 1 {
      var front := blocks[..|blocks| - 1];
      JoinIsWoven(front);
      WovenAppend(front, blocks[|blocks| - 1]);
      SplitLast(blocks);
    }
  }

  /** `kept` are the blocks at the places `places`, in order. */
  predicate AtPlaces(blocks: seq<Text>, places: seq<nat>, kept: seq<Text>) {
    && |places| == |kept|
    && (forall k | 0 <= k < |places| :: places[k] < |blocks| && kept[k] == blocks[places[k]])
    && (forall j, k | 0 <= j < k < |places| :: places[j] < places[k])
  }

  lemma {:induction false} KeepIs(blocks: seq<Text>, keep: set<nat>) returns (places: seq<nat>)
    ensures AtPlaces(blocks, places, Keep(blocks, keep))
    ensures forall i :: i in places <==> i in keep && i < |blocks|
  {
    if blocks == [] {
      places := [];
    } else {
      var n := |blocks| - 1;
      places := KeepIs(blocks[..n], keep);
      if n in keep {
        assert forall k | 0 <= k < |places| :: places[k] in places;
        places := places + [n];
      }
    }
  }

  /** The informative blocks are those that are not boilerplate, in order. */
  lemma InformativeIs(judge: Judge, blocks: seq<Text>) returns (places: seq<nat>)
    ensures AtPlaces(blocks, places, Informative(judge, blocks))
    ensures forall i: nat :: i in places <==> i < |blocks| && !judge.isBoilerplate(blocks[i])
  {
    places := KeepIs(blocks, set i | 0 <= i < |blocks| && !judge.isBoilerplate(blocks[i]));
  }

  /** A block that matches counts its matches, four more for a heading, and one more for its length. */
  lemma ScoreIs(judge: Judge, block: Text)
    ensures Score(judge, block) == 0 <==> judge.matches(block) == 0
    ensures judge.matches(block) > 0 ==>
              var more := Score(judge, block) - judge.matches(block);
              && (more == 4 || more == 5 <==> block != [] && block[0] == 35)
              && (more == 1 || more == 5 <==> |block| >= 120)
              && (more == 0 || more == 1 || more == 4 || more == 5)
  {
  }

  /** The block at `i` comes before the one at `j` when the eight are chosen. */
  ghost predicate Ahead(judge: Judge, blocks: seq<Text>, i: nat, j: nat)
    requires i < |blocks| && j < |blocks|
  {
    Score(judge, blocks[i]) > Score(judge, blocks[j]) || (Score(judge, blocks[i]) == Score(judge, blocks[j]) && i < j)
  }

  /** The block at `i` matches, or none does. */
  ghost predicate Candidate(judge: Judge, blocks: seq<Text>, i: nat) {
    && i < |blocks|
    && (judge.matches(blocks[i]) > 0 || forall j | 0 <= j < |blocks| :: judge.matches(blocks[j]) == 0)
  }

  /** The places are those of the eight blocks, or all there are, ahead of all others that match, or of all if none
      does. */
  ghost predicate EightBest(judge: Judge, blocks: seq<Text>, places: seq<nat>) {
    var candidates := CandidatePlaces(judge, blocks);
    && |places| == (if |candidates| <= 8 then |candidates| else 8)
    && (forall k | 0 <= k < |places| :: places[k] in candidates)
    && forall k, j | 0 <= k < |places| && j in candidates && j !in places :: Ahead(judge, blocks, places[k], j)
  }

  lemma CandidatesAre(judge: Judge, blocks: seq<Text>, c: Scored)
    ensures c in Candidates(ScoreAll(judge, blocks)) <==>
              && c.index < |blocks| && c == Scored(Score(judge, blocks[c.index]), c.index)
              && Candidate(judge, blocks, c.index)
  {
    var all := ScoreAll(judge, blocks);
    assert c.index < |blocks| ==> all[c.index] == Scored(Score(judge, blocks[c.index]), c.index);
    if j :| 0 <= j < |blocks| && judge.matches(blocks[j]) > 0 {
      assert all[j] in Relevant(all);
    } else {
      NoneRelevant(all);
    }
  }

  lemma {:induction false} NoneRelevant(scored: seq<Scored>)
    requires forall i | 0 <= i < |scored| :: scored[i].score == 0
    ensures Relevant(scored) == []
  {
    if scored != [] {
      NoneRelevant(scored[1..]);
    }
  }

  predicate DistinctIndexes(items: seq<Scored>) {
    forall a, b | 0 <= a < b < |items| :: items[a].index != items[b].index
  }

  function IndexesOf(items: seq<Scored>): set<nat> {
    set x | x in items :: x.index
  }

  lemma {:induction false} IndexCount(items: seq<Scored>)
    requires DistinctIndexes(items)
    ensures |IndexesOf(items)| == |items|
  {
    if items != [] {
      var front, last := items[..|items| - 1], items[|items| - 1];
      IndexCount(front);
      SplitLast(items);
      assert IndexesOf(items) == IndexesOf(front) + {last.index};
    }
  }

  lemma {:induction false} RelevantDistinct(scored: seq<Scored>)
    requires DistinctIndexes(scored)
    ensures DistinctIndexes(Relevant(scored))
  {
    if scored != [] {
      RelevantDistinct(scored[1..]);
      forall x | x in Relevant(scored[1..]) ensures x.index != scored[0].index {
        var i :| 0 <= i < |scored[1..]| && scored[1..][i] == x;
        assert scored[i + 1] == x;
      }
    }
  }

  lemma {:induction false} InsertDistinct(x: Scored, order: seq<Scored>)
    requires DistinctIndexes(order) && x.index !in IndexesOf(order)
    ensures DistinctIndexes(Insert(x, order))
  {
    if order != [] {
      assert forall y | y in order :: y.index in IndexesOf(order);
      if Better(order[0], x) {
        assert forall y | y in order[1..] :: y in order;
        InsertDistinct(x, order[1..]);
        forall y | y in Insert(x, order[1..]) ensures y.index != order[0].index {
          if y != x {
            var i :| 0 <= i < |order[1..]| && order[1..][i] == y;
            assert order[i + 1] == y;
          }
        }
      }
    }
  }

  lemma {:induction false} SortDistinct(items: seq<Scored>)
    requires DistinctIndexes(items)
    ensures DistinctIndexes(Sort(items))
  {
    if items != [] {
      SortDistinct(items[1..]);
      forall y | y in Sort(items[1..]) ensures y.index != items[0].index {
        var i :| 0 <= i < |items[1..]| && items[1..][i] == y;
        assert items[i + 1] == y;
      }
      InsertDistinct(items[0], Sort(items[1..]));
    }
  }

  ghost function CandidatePlaces(judge: Judge, blocks: seq<Text>): set<nat> {
    set i | 0 <= i < |blocks| && Candidate(judge, blocks, i)
  }

  lemma CandidateCount(judge: Judge, blocks: seq<Text>)
    ensures var items := Candidates(ScoreAll(judge, blocks));
            DistinctIndexes(items) && IndexesOf(items) == CandidatePlaces(judge, blocks)
            && |items| == |CandidatePlaces(judge, blocks)|
  {
    var items := Candidates(ScoreAll(judge, blocks));
    RelevantDistinct(ScoreAll(judge, blocks));
    IndexCount(items);
    forall i ensures i in IndexesOf(items) <==> i in CandidatePlaces(judge, blocks) {
      if i in CandidatePlaces(judge, blocks) {
        CandidatesAre(judge, blocks, Scored(Score(judge, blocks[i]), i));
      }
      if c :| c in items && c.index == i {
        CandidatesAre(judge, blocks, c);
      }
    }
  }

  /** As many places as there are best items, each the index of one. */
  lemma PlaceCount(items: seq<Scored>, places: seq<nat>)
    requires DistinctIndexes(items) && forall j, k | 0 <= j < k < |places| :: places[j] < places[k]
    requires forall i :: i in places <==> i in IndexesOf(items)
    ensures |places| == |items|
  {
    IndexCount(items);
    DistinctSize(places);
    assert (set i: nat | i in places) == IndexesOf(items);
  }

  /** What is chosen of a page that does not fit: its eight best blocks, in the order of the page. */
  lemma SelectedIs(judge: Judge, blocks: seq<Text>) returns (places: seq<nat>)
    ensures AtPlaces(blocks, places, Selected(judge, blocks)) && EightBest(judge, blocks, places)
  {
    var items := Candidates(ScoreAll(judge, blocks));
    var best := Best(items);
    places := KeepIs(blocks, IndexesOf(best));
    CandidateCount(judge, blocks);
    SortDistinct(items);
    assert forall c | c in best :: c.index in IndexesOf(items);
    PlaceCount(best, places);
    forall k, j: nat | 0 <= k < |places| && j in CandidatePlaces(judge, blocks) && j !in places
      ensures Ahead(judge, blocks, places[k], j)
    {
      BestAhead(judge, blocks, places[k], j);
    }
    forall k | 0 <= k < |places| ensures places[k] in CandidatePlaces(judge, blocks) {
      assert places[k] in places;
    }
  }

  lemma BestAhead(judge: Judge, blocks: seq<Text>, i: nat, j: nat)
    requires var best := Best(Candidates(ScoreAll(judge, blocks)));
             i in IndexesOf(best) && j in CandidatePlaces(judge, blocks) && j !in IndexesOf(best)
    ensures i < |blocks| && Ahead(judge, blocks, i, j)
  {
    var items := Candidates(ScoreAll(judge, blocks));
    var best := Best(items);
    var kept :| kept in best && kept.index == i;
    var out := Scored(Score(judge, blocks[j]), j);
    CandidatesAre(judge, blocks, kept);
    CandidatesAre(judge, blocks, out);
    assert out !in best;
    BestAreBest(items, kept, out);
  }

  // ---- Encodability ------------------------------------------------------

  predicate AllEncodable(pieces: seq<Text>) {
    forall i | 0 <= i < |pieces| :: Encodable(pieces[i])
  }

  lemma {:induction false} SplitBlocksEncodable(s: Text)
    requires Encodable(s)
    ensures AllEncodable(SplitBlocks(s))
    decreases |s|
  {
    if s != [] {
      if Separator(s) > 0 {
        SplitBlocksEncodable(s[Separator(s)..]);
      } else {
        SplitBlocksEncodable(s[1..]);
      }
    }
  }

  /** Stripping leaves a part of the text: no new code points, no more bytes. */
  lemma StripPart(s: Text)
    ensures Encodable(s) ==> Encodable(Strip(s))
    ensures |Encode(Strip(s))| <= |Encode(s)|
  {
    var k := StripLeftPart(s);
    var left, p := StripLeft(s), Strip(s);
    assert s == s[..k] + left;
    EncodeConcat(s[..k], left);
    assert left == p + left[|p|..];
    EncodeConcat(p, left[|p|..]);
  }

  lemma {:induction false} KeptEncodable(pieces: seq<Text>)
    requires AllEncodable(pieces)
    ensures AllEncodable(Kept(pieces))
  {
    if pieces != [] {
      KeptEncodable(pieces[1..]);
      StripPart(pieces[0]);
    }
  }

  lemma {:induction false} KeepEncodable(blocks: seq<Text>, keep: set<nat>)
    requires AllEncodable(blocks)
    ensures AllEncodable(Keep(blocks, keep))
  {
    if blocks != [] {
      KeepEncodable(blocks[..|blocks| - 1], keep);
    }
  }

  lemma {:induction false} JoinEncodable(blocks: seq<Text>)
    requires AllEncodable(blocks)
    ensures Encodable(Join(blocks))
  {
    if |blocks| > 1 {
      JoinEncodable(blocks[..|blocks| - 1]);
    }
  }

  // ---- The excerpt's laws ------------------------------------------------

  lemma BlocksOfText(s: Text)
    ensures InkOf(Blocks(s)) == Ink(s) && AllInked(Blocks(s))
    ensures Encodable(s) ==> AllEncodable(Blocks(s))
  {
    SplitBlocksKeepsInk(s);
    KeptKeepsInk(SplitBlocks(s));
    if Encodable(s) {
      SplitBlocksEncodable(s);
      KeptEncodable(SplitBlocks(s));
    }
  }

  /** A text cut to size and stripped fits the size; the flag says exactly whether ink was lost. */
  lemma CutAndStrip(s: Text, maxBytes: nat)
    requires Encodable(s)
    ensures Truncate(s, maxBytes).Some?
    ensures var (p, cut) := Truncate(s, maxBytes).value;
            && |Encode(Strip(p))| <= maxBytes
            && |Ink(Strip(p))| <= |Ink(s)|
            && (!cut ==> p == s && Ink(Strip(p)) == Ink(s))
            && (cut && NoTrailingBlank(s) ==> |Ink(Strip(p))| < |Ink(s)|)
  {
    TruncateIsLongestPrefix(s, maxBytes);
    var (p, cut) := Truncate(s, maxBytes).value;
    StripPart(p);
    StripKeepsInk(p);
    PrefixInk(p, s);
  }

  /** What an excerpt of `s` promises: it fits, a clear flag means nothing is missing, and a raised one that ink is. */
  predicate Honest(s: Text, maxBytes: nat, excerpt: Text, cut: bool) {
    && |Encode(excerpt)| <= maxBytes
    && |Ink(excerpt)| <= |Ink(s)|
    && (!cut ==> Ink(excerpt) == Ink(s) && (excerpt == Strip(s) || excerpt == Join(Blocks(s))))
    && (cut && NoTrailingBlank(s) ==> |Ink(excerpt)| < |Ink(s)|)
  }

  lemma SelectionHonest(judge: Judge, informative: seq<Text>, maxBytes: nat)
    requires AllInked(informative) && AllEncodable(informative) && |Encode(Join(informative))| > maxBytes
    ensures var selected := Selected(judge, informative);
            && Truncate(Join(selected), maxBytes).Some?
            && var (p, cut) := Truncate(Join(selected), maxBytes).value;
            && |Encode(Strip(p))| <= maxBytes
            && (cut || |selected| < |informative|)
            && |Ink(Strip(p))| < |InkOf(informative)|
  {
    var keep := set x | x in Best(Candidates(ScoreAll(judge, informative))) :: x.index;
    var selected := Keep(informative, keep);
    assert selected == Selected(judge, informative);
    KeepSome(informative, keep);
    KeepInk(informative, keep);
    KeepEncodable(informative, keep);
    JoinEncodable(selected);
    JoinEndsInInk(selected);
    InkOfJoin(selected);
    CutAndStrip(Join(selected), maxBytes);
  }

  lemma BoundedHonest(judge: Judge, bounded: Text, maxBytes: nat)
    requires Encodable(bounded)
    ensures ExcerptOfBounded(judge, bounded, maxBytes).Some?
    ensures var (excerpt, cut) := ExcerptOfBounded(judge, bounded, maxBytes).value;
            Honest(bounded, maxBytes, excerpt, cut)
  {
    var blocks := Blocks(bounded);
    var keep := set i | 0 <= i < |blocks| && !judge.isBoilerplate(blocks[i]);
    var informative := Keep(blocks, keep);
    assert informative == Informative(judge, blocks);
    BlocksOfText(bounded);
    KeepSome(blocks, keep);
    KeepInk(blocks, keep);
    KeepEncodable(blocks, keep);
    if informative == [] {
      CutAndStrip(bounded, maxBytes);
    } else if |Encode(Join(informative))| <= maxBytes {
      InkOfJoin(informative);
    } else {
      SelectionHonest(judge, informative, maxBytes);
    }
  }

  /** The excerpt never exceeds its budget, and its flag is clear exactly when no ink of the page is missing; then the
      excerpt is the whole page, or all its blocks in order. */
  lemma ExcerptHonest(judge: Judge, markdown: Text, maxBytes: nat)
    ensures RelevantExcerpt(judge, markdown, maxBytes).Some? <==> Encodable(Strip(markdown))
    ensures RelevantExcerpt(judge, markdown, maxBytes).Some? ==>
              var (excerpt, cut) := RelevantExcerpt(judge, markdown, maxBytes).value;
              && |Encode(excerpt)| <= maxBytes
              && (cut <==> Ink(excerpt) != Ink(markdown))
              && (!cut ==> excerpt == Strip(Strip(markdown)) || excerpt == Join(Blocks(Strip(markdown))))
  {
    var page := Strip(markdown);
    StripKeepsInk(markdown);
    if Encodable(page) {
      TruncateIsLongestPrefix(page, RAW_MAX_BYTES);
      var bounded := Truncate(page, RAW_MAX_BYTES).value.0;
      PrefixInk(bounded, page);
      BoundedHonest(judge, bounded, maxBytes);
    }
  }

  /** `p` is what is left of `s` cut to the byte limit. */
  ghost predicate TruncatesTo(s: Text, maxBytes: nat, p: Text) {
    exists cut :: Truncate(s, maxBytes) == Some((p, cut))
  }

  /** What the excerpt of a bounded page is: its beginning, if every block is boilerplate; else all informative
      blocks, if they fit; else the beginning of the eight best of them. */
  ghost predicate IsExcerpt(judge: Judge, bounded: Text, informative: seq<Text>, places: seq<nat>, chosen: seq<Text>,
                            excerpt: Text, maxBytes: nat)
  {
    if informative == [] then exists p :: TruncatesTo(bounded, maxBytes, p) && excerpt == Strip(p)
    else if |Encode(Woven(informative))| <= maxBytes then excerpt == Woven(informative)
    else
      && AtPlaces(informative, places, chosen) && EightBest(judge, informative, places)
      && exists p :: TruncatesTo(Woven(chosen), maxBytes, p) && excerpt == Strip(p)
  }

  lemma BoundedFits(judge: Judge, bounded: Text, maxBytes: nat)
    requires ExcerptOfBounded(judge, bounded, maxBytes).Some?
    ensures var informative := Informative(judge, Blocks(bounded));
            var excerpt := ExcerptOfBounded(judge, bounded, maxBytes).value.0;
            && (informative == [] ==> exists p :: TruncatesTo(bounded, maxBytes, p) && excerpt == Strip(p))
            && (informative != [] && |Encode(Woven(informative))| <= maxBytes ==> excerpt == Woven(informative))
  {
    JoinIsWoven(Informative(judge, Blocks(bounded)));
    if Informative(judge, Blocks(bounded)) == [] {
      assert TruncatesTo(bounded, maxBytes, Truncate(bounded, maxBytes).value.0);
    }
  }

  lemma BoundedChosen(judge: Judge, bounded: Text, maxBytes: nat, informative: seq<Text>, chosen: seq<Text>)
    requires ExcerptOfBounded(judge, bounded, maxBytes).Some?
    requires informative == Informative(judge, Blocks(bounded)) && chosen == Selected(judge, informative)
    requires informative != [] && |Encode(Woven(informative))| > maxBytes
    ensures exists p :: TruncatesTo(Woven(chosen), maxBytes, p)
                        && ExcerptOfBounded(judge, bounded, maxBytes).value.0 == Strip(p)
  {
    JoinIsWoven(informative);
    JoinIsWoven(chosen);
    assert TruncatesTo(Woven(chosen), maxBytes, Truncate(Woven(chosen), maxBytes).value.0);
  }

  lemma BoundedIs(judge: Judge, bounded: Text, maxBytes: nat)
    returns (informative: seq<Text>, places: seq<nat>, chosen: seq<Text>)
    requires ExcerptOfBounded(judge, bounded, maxBytes).Some?
    ensures informative == Informative(judge, Blocks(bounded))
    ensures IsExcerpt(judge, bounded, informative, places, chosen,
                      ExcerptOfBounded(judge, bounded, maxBytes).value.0, maxBytes)
  {
    informative := Informative(judge, Blocks(bounded));
    chosen := Selected(judge, informative);
    places := SelectedIs(judge, informative);
    if informative == [] || |Encode(Woven(informative))| <= maxBytes {
      BoundedFits(judge, bounded, maxBytes);
    } else {
      BoundedChosen(judge, bounded, maxBytes, informative, chosen);
    }
  }

  /** What the excerpt is, of the page's first 128 KiB. */
  lemma ExcerptIs(judge: Judge, markdown: Text, maxBytes: nat)
    returns (bounded: Text, informative: seq<Text>, places: seq<nat>, chosen: seq<Text>)
    requires Encodable(Strip(markdown))
    ensures TruncatesTo(Strip(markdown), 131072, bounded) && informative == Informative(judge, Blocks(bounded))
    ensures RelevantExcerpt(judge, markdown, maxBytes).Some?
    ensures IsExcerpt(judge, bounded, informative, places, chosen,
                      RelevantExcerpt(judge, markdown, maxBytes).value.0, maxBytes)
  {
    ExcerptHonest(judge, markdown, maxBytes);
    bounded := Truncate(Strip(markdown), RAW_MAX_BYTES).value.0;
    informative, places, chosen := BoundedIs(judge, bounded, maxBytes);
  }
}
