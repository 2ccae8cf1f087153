/** One batch of web research: tidied queries, one supplement at most, merged hits, a selection, a fetch per choice. */
module WebSearch {
  import opened Sequences
  import opened Utf8
  import Whitespace
  import opened WebTypes
  import M = WebMerge
  import S = WebSelection

  datatype Query = Query(text: Text, questions: seq<Question>)

  type Search = Text -> M.Answer
  /** Fetching a page, for a query that says what of it is wanted. */
  type Fetch = (string, Text) -> Page
  datatype Page = Fetched(excerpt: string) | FetchError

  datatype Call = Searched(query: Text, ok: bool) | Scraped(url: string, ok: bool)

  datatype Outcome = Batch(results: seq<M.Result>, calls: seq<Call>) | Raised

  // ---- Which queries are asked -------------------------------------------

  /** What a supplementary query adds to the first one. */
  const SUPPLEMENT: Text := [0x20, 0x5B98, 0x65B9, 0x5E2E, 0x52A9, 0x4E2D, 0x5FC3, 0x20, 0x53D1, 0x5E03, 0x8BF4, 0x660E,
                             0x20, 0x53EF, 0x9A8C, 0x8BC1, 0x8BC1, 0x636E]

  predicate HasText(queries: seq<Query>, text: Text) {
    exists i | 0 <= i < |queries| :: queries[i].text == text
  }

  predicate DistinctTexts(queries: seq<Query>) {
    forall i, j | 0 <= i < j < |queries| :: queries[i].text != queries[j].text
  }

  function FirstFour(queries: seq<Query>): seq<Query> {
    if |queries| <= 4 then queries else queries[..4]
  }

  /** Stripped, without blanks and repeats. */
  function Tidy(queries: seq<Query>): (r: seq<Query>)
    ensures |r| <= |queries| && DistinctTexts(r)
    ensures forall i | 0 <= i < |r| :: r[i].text != []
  {
    if queries == [] then []
    else
      var n := |queries| - 1;
      var tidy, text := Tidy(queries[..n]), Whitespace.Strip(queries[n].text);
      if text == [] || HasText(tidy, text) then tidy
      else tidy + [Query(text, M.Dedup(queries[n].questions))]
  }

  /** The query is the first with its text, stripped, and asks each of that one's questions once. */
  ghost predicate FirstWithText(queries: seq<Query>, i: nat, query: Query)
    requires i < |queries|
  {
    && query.text == Whitespace.Strip(queries[i].text)
    && (forall q :: q in query.questions <==> q in queries[i].questions) && NoRepeats(query.questions)
    && forall k | 0 <= k < i :: Whitespace.Strip(queries[k].text) != query.text
  }

  ghost predicate TidiedFrom(queries: seq<Query>, query: Query) {
    exists i | 0 <= i < |queries| :: FirstWithText(queries, i, query)
  }

  lemma TidyNext(front: seq<Query>, last: Query)
    ensures var text := Whitespace.Strip(last.text);
            Tidy(front + [last]) == if text == [] || HasText(Tidy(front), text) then Tidy(front)
                                    else Tidy(front) + [Query(text, M.Dedup(last.questions))]
  {
    assert (front + [last])[..|front|] == front;
  }

  lemma HasTextMore(queries: seq<Query>, query: Query, text: Text)
    requires HasText(queries, text) || query.text == text
    ensures HasText(queries + [query], text)
  {
    if HasText(queries, text) {
      var i :| 0 <= i < |queries| && queries[i].text == text;
      assert (queries + [query])[i].text == text;
    } else {
      assert (queries + [query])[|queries|].text == text;
    }
  }

  /** No query is missed but blank ones. */
  lemma {:induction false} TidyMissesNone(queries: seq<Query>, i: nat)
    requires i < |queries| && Whitespace.Strip(queries[i].text) != []
    ensures HasText(Tidy(queries), Whitespace.Strip(queries[i].text))
  {
    var front, last := queries[..|queries| - 1], queries[|queries| - 1];
    var text := Whitespace.Strip(last.text);
    SplitLast(queries);
    TidyNext(front, last);
    if i < |front| {
      TidyMissesNone(front, i);
    }
    if text != [] && !HasText(Tidy(front), text) {
      HasTextMore(Tidy(front), Query(text, M.Dedup(last.questions)), Whitespace.Strip(queries[i].text));
    }
  }

  lemma TidiedFromMore(front: seq<Query>, last: Query, query: Query)
    requires TidiedFrom(front, query)
    ensures TidiedFrom(front + [last], query)
  {
    var i :| 0 <= i < |front| && FirstWithText(front, i, query);
    assert FirstWithText(front + [last], i, query);
  }

  /** Each tidied query is the first one with its text. */
  lemma {:induction false} TidyKeepsFirst(queries: seq<Query>, k: nat)
    requires k < |Tidy(queries)|
    ensures TidiedFrom(queries, Tidy(queries)[k])
  {
    var front, last := queries[..|queries| - 1], queries[|queries| - 1];
    SplitLast(queries);
    TidyNext(front, last);
    if k < |Tidy(front)| {
      TidyKeepsFirst(front, k);
      TidiedFromMore(front, last, Tidy(front)[k]);
    } else {
      M.ExtendNoRepeats([], last.questions);
      forall i | 0 <= i < |front| ensures Whitespace.Strip(queries[i].text) != Whitespace.Strip(last.text) {
        assert front[i] == queries[i];
        if Whitespace.Strip(queries[i].text) != [] {
          TidyMissesNone(front, i);
        }
      }
      assert FirstWithText(queries, |front|, Tidy(queries)[k]);
    }
  }

  function AllQuestions(queries: seq<Query>): seq<Question> {
    if queries == [] then [] else AllQuestions(queries[..|queries| - 1]) + queries[|queries| - 1].questions
  }

  function Required(queries: seq<Query>): seq<Question> {
    M.Dedup(AllQuestions(queries))
  }

  /** The hits of all queries that were answered. */
  function Gathered(search: Search, asked: seq<Query>): seq<M.Hit> {
    if asked == [] then []
    else
      var n := |asked| - 1;
      Gathered(search, asked[..n])
      + match search(asked[n].text)
        case Found(results) => M.HitsOf(results, asked[n].questions)
        case SearchError => []
  }

  /** The addresses found for the question. */
  ghost function FoundUrls(canon: M.Canonical, hits: seq<M.Hit>, q: Question): set<string> {
    set url | url in M.Keys(canon, hits) && q in M.FoundFor(canon, hits, url)
  }

  ghost function Support(canon: M.Canonical, hits: seq<M.Hit>, q: Question): nat {
    |FoundUrls(canon, hits, q)|
  }

  ghost function Missing(canon: M.Canonical, hits: seq<M.Hit>, questions: seq<Question>): seq<Question> {
    if questions == [] then []
    else
      var n := |questions| - 1;
      Missing(canon, hits, questions[..n]) + if Support(canon, hits, questions[n]) < 2 then [questions[n]] else []
  }

  function SupplementText(first: Text): (r: Text)
    ensures r <= first + SUPPLEMENT && |r| <= 4000 && (r == first + SUPPLEMENT || |r| == 4000)
  {
    var text := first + SUPPLEMENT;
    if |text| <= 4000 then text else text[..4000]
  }

  /** The tidied queries, and a supplement when some question has fewer than two addresses and there is room for it. */
  ghost function Asked(canon: M.Canonical, search: Search, queries: seq<Query>): (r: seq<Query>)
    ensures |r| <= 4 && DistinctTexts(r)
    ensures Tidy(FirstFour(queries)) <= r
  {
    var tidy := Tidy(FirstFour(queries));
    if tidy == [] then tidy
    else
      var missing := Missing(canon, Gathered(search, tidy), Required(tidy));
      var text := SupplementText(tidy[0].text);
      if missing != [] && |tidy| < 4 && !HasText(tidy, text) then tidy + [Query(text, missing)] else tidy
  }

  /** Some tidied query asks the question. */
  predicate Wanted(tidy: seq<Query>, q: Question) {
    exists i | 0 <= i < |tidy| :: q in tidy[i].questions
  }

  lemma {:induction false} AllQuestionsAre(queries: seq<Query>, q: Question)
    ensures q in AllQuestions(queries) <==> Wanted(queries, q)
  {
    if queries != [] {
      var front := queries[..|queries| - 1];
      AllQuestionsAre(front, q);
      if Wanted(front, q) {
        var i :| 0 <= i < |front| && q in front[i].questions;
        assert q in queries[i].questions;
      }
    }
  }

  lemma {:induction false} MissingAre(canon: M.Canonical, hits: seq<M.Hit>, questions: seq<Question>, q: Question)
    ensures q in Missing(canon, hits, questions) <==> q in questions && |FoundUrls(canon, hits, q)| <= 1
  {
    if questions != [] {
      MissingAre(canon, hits, questions[..|questions| - 1], q);
      assert questions == questions[..|questions| - 1] + [questions[|questions| - 1]];
    }
  }

  /** The supplement comes last, and it is asked exactly when fewer than four queries were, its text is not among
      theirs, and some question of theirs has at most one address; and it asks just those questions. */
  lemma SupplementIff(canon: M.Canonical, search: Search, queries: seq<Query>)
    ensures var tidy, asked := Tidy(FirstFour(queries)), Asked(canon, search, queries);
            var hits := Gathered(search, tidy);
            && (asked != tidy <==>
                  && 1 <= |tidy| <= 3 && !HasText(tidy, SupplementText(tidy[0].text))
                  && exists q :: Wanted(tidy, q) && |FoundUrls(canon, hits, q)| <= 1)
            && (asked != tidy ==>
                  && |asked| == |tidy| + 1 && tidy <= asked && asked[|tidy|].text == SupplementText(tidy[0].text)
                  && forall q :: q in asked[|tidy|].questions <==> Wanted(tidy, q) && |FoundUrls(canon, hits, q)| <= 1)
  {
    var tidy := Tidy(FirstFour(queries));
    var hits := Gathered(search, tidy);
    var missing := Missing(canon, hits, Required(tidy));
    forall q ensures q in missing <==> Wanted(tidy, q) && |FoundUrls(canon, hits, q)| <= 1 {
      MissingAre(canon, hits, Required(tidy), q);
      AllQuestionsAre(tidy, q);
    }
    if missing != [] {
      assert missing[0] in missing;
    }
  }

  method TidyQueries(queries: seq<Query>) returns (tidy: seq<Query>)
    ensures tidy == Tidy(FirstFour(queries))
  {
    var four := FirstFour(queries);
    tidy := [];
    for i := 0 to |four|
      invariant tidy == Tidy(four[..i])
    {
      assert four[..i + 1][..i] == four[..i];
      var text := Whitespace.Strip(four[i].text);
      if text == [] || HasText(tidy, text) {
        continue;
      }
      tidy := tidy + [Query(text, M.Dedup(four[i].questions))];
    }
    assert four[..|four|] == four;
  }

  method RequiredQuestions(queries: seq<Query>) returns (required: seq<Question>)
    ensures required == Required(queries)
  {
    var all := [];
    for i := 0 to |queries|
      invariant all == AllQuestions(queries[..i])
    {
      assert queries[..i + 1][..i] == queries[..i];
      all := all + queries[i].questions;
    }
    assert queries[..|queries|] == queries;
    required := M.Dedup(all);
  }

  // ---- Searching ---------------------------------------------------------

  function SearchCalls(search: Search, asked: seq<Query>): (r: seq<Call>)
    ensures |r| == |asked|
  {
    seq(|asked|, i requires 0 <= i < |asked| => Searched(asked[i].text, search(asked[i].text).Found?))
  }

  predicate SomeError(search: Search, asked: seq<Query>) {
    exists i | 0 <= i < |asked| :: search(asked[i].text).SearchError?
  }

  lemma GatheredAppend(search: Search, asked: seq<Query>, query: Query)
    ensures Gathered(search, asked + [query]) == Gathered(search, asked) + Gathered(search, [query])
  {
    assert (asked + [query])[..|asked|] == asked;
    assert [query][..0] == [];
    assert Gathered(search, [query]) == [] + Gathered(search, [query]);
  }

  method CollectQuery(c: M.Collector, search: Search, query: Query) returns (call: Call)
    requires c.Valid()
    modifies c
    ensures c.Valid() && c.hits == old(c.hits) + Gathered(search, [query])
    ensures call == SearchCalls(search, [query])[0]
  {
    assert [query][..0] == [];
    match search(query.text) {
      case SearchError =>
        assert Gathered(search, [query]) == [];
        call := Searched(query.text, false);
      case Found(results) =>
        assert Gathered(search, [query]) == M.HitsOf(results, query.questions);
        c.MergeAll(results, query.questions);
        call := Searched(query.text, true);
    }
  }

  method CollectAll(c: M.Collector, search: Search, asked: seq<Query>) returns (calls: seq<Call>)
    requires c.Valid() && c.hits == []
    modifies c
    ensures c.Valid() && c.hits == Gathered(search, asked) && calls == SearchCalls(search, asked)
  {
    calls := [];
    for i := 0 to |asked|
      invariant c.Valid() && c.hits == Gathered(search, asked[..i]) && calls == SearchCalls(search, asked[..i])
    {
      GatheredAppend(search, asked[..i], asked[i]);
      assert asked[..i] + [asked[i]] == asked[..i + 1];
      var call := CollectQuery(c, search, asked[i]);
      calls := calls + [call];
    }
    assert asked[..|asked|] == asked;
  }

  // ---- The merged results as pairs ---------------------------------------

  function Pairs(urls: seq<string>, byUrl: map<string, M.Entry>): (r: seq<S.Pair>)
    requires M.InOrder(urls, byUrl)
    ensures |r| == |urls|
  {
    seq(|urls|, i requires 0 <= i < |urls| =>
      S.Pair(byUrl[urls[i]].order, urls[i], byUrl[urls[i]].result.questions))
  }

  /** What selection sees of an address. */
  ghost function PairOf(canon: M.Canonical, hits: seq<M.Hit>, url: string): S.Pair {
    S.Pair(M.Discovery(canon, hits, url), url, M.Dedup(M.FoundFor(canon, hits, url)))
  }

  ghost predicate PairRight(canon: M.Canonical, hits: seq<M.Hit>, p: S.Pair) {
    p.url in M.Keys(canon, hits) && p == PairOf(canon, hits, p.url)
  }

  lemma PairsRight(canon: M.Canonical, hits: seq<M.Hit>, urls: seq<string>, byUrl: map<string, M.Entry>)
    requires M.Merged(canon, hits, byUrl) && M.InOrder(urls, byUrl)
    ensures var ps := Pairs(urls, byUrl);
            && S.DistinctUrls(ps) && |ps| == |M.Keys(canon, hits)|
            && forall i | 0 <= i < |ps| :: PairRight(canon, hits, ps[i])
  {
    var ps := Pairs(urls, byUrl);
    M.InOrderSize(urls, byUrl);
    assert |byUrl| == |byUrl.Keys|;
    forall i, j | 0 <= i < j < |ps| ensures ps[i].url != ps[j].url {
      assert byUrl[urls[i]].order == i && byUrl[urls[j]].order == j;
    }
    forall i | 0 <= i < |ps| ensures PairRight(canon, hits, ps[i]) {
      assert M.EntryRight(canon, hits, urls[i], byUrl[urls[i]]);
    }
  }

  predicate Carried(ps: seq<S.Pair>, q: Question, url: string) {
    exists i | 0 <= i < |ps| :: q in ps[i].questions && ps[i].url == url
  }

  function UrlsCarrying(ps: seq<S.Pair>, q: Question): set<string> {
    if ps == [] then {}
    else UrlsCarrying(ps[..|ps| - 1], q) + if q in ps[|ps| - 1].questions then {ps[|ps| - 1].url} else {}
  }

  lemma {:induction false} UrlsCarryingAre(ps: seq<S.Pair>, q: Question, url: string)
    ensures url in UrlsCarrying(ps, q) <==> Carried(ps, q, url)
  {
    if ps != [] {
      var n := |ps| - 1;
      UrlsCarryingAre(ps[..n], q, url);
      if Carried(ps[..n], q, url) {
        var i :| 0 <= i < n && q in ps[..n][i].questions && ps[..n][i].url == url;
        assert q in ps[i].questions && ps[i].url == url;
      }
    }
  }

  lemma {:induction false} CountIsUrls(ps: seq<S.Pair>, q: Question)
    requires S.DistinctUrls(ps)
    ensures S.Count(ps, q) == |UrlsCarrying(ps, q)|
  {
    if ps != [] {
      var n := |ps| - 1;
      CountIsUrls(ps[..n], q);
      UrlsCarryingAre(ps[..n], q, ps[n].url);
      assert !Carried(ps[..n], q, ps[n].url);
    }
  }

  lemma CarriedIffFound(canon: M.Canonical, hits: seq<M.Hit>, urls: seq<string>, byUrl: map<string, M.Entry>,
                        q: Question, url: string)
    requires M.Merged(canon, hits, byUrl) && M.InOrder(urls, byUrl)
    ensures Carried(Pairs(urls, byUrl), q, url) <==>
            url in M.Keys(canon, hits) && q in M.FoundFor(canon, hits, url)
  {
    var ps := Pairs(urls, byUrl);
    if url in byUrl {
      assert M.EntryRight(canon, hits, url, byUrl[url]);
      var i :| 0 <= i < |urls| && urls[i] == url;
      assert ps[i].url == url;
    }
  }

  lemma CarryingAreFound(canon: M.Canonical, hits: seq<M.Hit>, urls: seq<string>, byUrl: map<string, M.Entry>,
                         q: Question)
    requires M.Merged(canon, hits, byUrl) && M.InOrder(urls, byUrl)
    ensures UrlsCarrying(Pairs(urls, byUrl), q) == FoundUrls(canon, hits, q)
  {
    var carrying, found := UrlsCarrying(Pairs(urls, byUrl), q), FoundUrls(canon, hits, q);
    forall url ensures url in carrying <==> url in found {
      UrlsCarryingAre(Pairs(urls, byUrl), q, url);
      CarriedIffFound(canon, hits, urls, byUrl, q, url);
    }
  }

  lemma CountIsSupport(canon: M.Canonical, hits: seq<M.Hit>, urls: seq<string>, byUrl: map<string, M.Entry>,
                       q: Question)
    requires M.Merged(canon, hits, byUrl) && M.InOrder(urls, byUrl)
    ensures S.Count(Pairs(urls, byUrl), q) == Support(canon, hits, q)
  {
    PairsRight(canon, hits, urls, byUrl);
    CountIsUrls(Pairs(urls, byUrl), q);
    CarryingAreFound(canon, hits, urls, byUrl, q);
  }

  method MissingQuestions(c: M.Collector, required: seq<Question>) returns (missing: seq<Question>)
    requires c.Valid()
    ensures missing == Missing(c.canon, c.hits, required)
  {
    var ps := Pairs(c.urls, c.byUrl);
    missing := [];
    for i := 0 to |required|
      invariant missing == Missing(c.canon, c.hits, required[..i])
    {
      CountIsSupport(c.canon, c.hits, c.urls, c.byUrl, required[i]);
      assert required[..i + 1][..i] == required[..i];
      if S.Count(ps, required[i]) < 2 {
        missing := missing + [required[i]];
      }
    }
    assert required[..|required|] == required;
  }

  // ---- Ranking -----------------------------------------------------------

  type Score = S.Pair -> (int, int)

  predicate RanksBefore(score: Score, p: S.Pair, q: S.Pair) {
    var (a, b) := (score(p), score(q));
    a.0 > b.0 || (a.0 == b.0 && (a.1 > b.1 || (a.1 == b.1 && p.order < q.order)))
  }

  function RankInsert(score: Score, p: S.Pair, ps: seq<S.Pair>): (r: seq<S.Pair>)
    ensures multiset(r) == multiset([p]) + multiset(ps)
  {
    if ps == [] || !RanksBefore(score, ps[0], p) then [p] + ps
    else
      assert ps == [ps[0]] + ps[1..];
      [ps[0]] + RankInsert(score, p, ps[1..])
  }

  function Rank(score: Score, ps: seq<S.Pair>): (r: seq<S.Pair>)
    ensures multiset(r) == multiset(ps)
  {
    if ps == [] then []
    else
      assert ps == [ps[0]] + ps[1..];
      RankInsert(score, ps[0], Rank(score, ps[1..]))
  }

  predicate Ranked(score: Score, ps: seq<S.Pair>) {
    forall i, j | 0 <= i < j < |ps| :: !RanksBefore(score, ps[j], ps[i])
  }

  lemma {:induction false} InsertRanked(score: Score, p: S.Pair, ps: seq<S.Pair>)
    requires Ranked(score, ps)
    ensures Ranked(score, RankInsert(score, p, ps))
  {
    if ps == [] {
    } else if RanksBefore(score, ps[0], p) {
      InsertRanked(score, p, ps[1..]);
      var r := RankInsert(score, p, ps[1..]);
      forall j | 0 <= j < |r| ensures !RanksBefore(score, r[j], ps[0]) {
        assert r[j] in multiset(r);
        assert r[j] == p || r[j] in ps[1..];
      }
    } else {
      forall j | 0 <= j < |ps| ensures !RanksBefore(score, ps[j], p) {
      }
    }
  }

  lemma {:induction false} RankRanked(score: Score, ps: seq<S.Pair>)
    ensures Ranked(score, Rank(score, ps))
  {
    if ps != [] {
      RankRanked(score, ps[1..]);
      InsertRanked(score, ps[0], Rank(score, ps[1..]));
    }
  }

  // ---- The whole batch ---------------------------------------------------

  /** How many results a batch may have: neither limit is exceeded, though there is room for one result always and for
      more than ten never, and one of these bounds is reached. */
  function Limit(resultLimit: int, scrapeLimit: int): (r: nat)
    ensures 1 <= r <= 10
    ensures (resultLimit >= 1 ==> r <= resultLimit) && (scrapeLimit >= 1 ==> r <= scrapeLimit)
    ensures r == resultLimit || r == scrapeLimit || r == 10 || (r == 1 && (resultLimit < 1 || scrapeLimit < 1))
  {
    var scrape := if scrapeLimit < 1 then 1 else if scrapeLimit > 10 then 10 else scrapeLimit;
    if resultLimit < 1 then 1 else if resultLimit < scrape then resultLimit else scrape
  }

  function CountIn(results: seq<M.Result>, q: Question): nat {
    if results == [] then 0
    else CountIn(results[..|results| - 1], q) + if q in results[|results| - 1].questions then 1 else 0
  }

  /** What may be chosen from the hits: merged results of distinct addresses, as many as fit or exist, in order of
      discovery, and two (or all) for as many required questions, the first ones first, as there is room for. */
  ghost predicate Chosen(canon: M.Canonical, hits: seq<M.Hit>, required: seq<Question>, limit: nat,
                         chosen: seq<M.Result>) {
    && |chosen| == S.Least(limit, |M.Keys(canon, hits)|)
    && (forall i | 0 <= i < |chosen| :: MergedResult(canon, hits, chosen[i]))
    && (forall i, j | 0 <= i < j < |chosen| ::
          M.Discovery(canon, hits, chosen[i].url) < M.Discovery(canon, hits, chosen[j].url))
    && forall k | 0 <= k < |required| && S.InReach(k, limit) ::
         CountIn(chosen, required[k]) >= S.Least(2, Support(canon, hits, required[k]))
  }

  /** The greater score counts, its first part first, and between equal scores the earlier discovery. */
  ghost predicate Outranks(a: (int, int), discovered: nat, b: (int, int), later: nat) {
    || b.0 < a.0
    || (b.0 == a.0 && b.1 < a.1)
    || (b == a && discovered < later)
  }

  /** A found address is passed over for a lower-ranked one only if that one carries a required question it lacks. */
  ghost predicate Preferred(canon: M.Canonical, hits: seq<M.Hit>, score: Score, required: seq<Question>,
                            chosen: seq<M.Result>) {
    forall url, i | url in M.Keys(canon, hits) && 0 <= i < |chosen| && !IsChosen(chosen, url)
                    && Outranks(score(PairOf(canon, hits, url)), M.Discovery(canon, hits, url),
                                score(PairOf(canon, hits, chosen[i].url)), M.Discovery(canon, hits, chosen[i].url)) ::
      S.Prefers(PairOf(canon, hits, chosen[i].url), PairOf(canon, hits, url), required)
  }

  predicate IsChosen(chosen: seq<M.Result>, url: string) {
    exists i | 0 <= i < |chosen| :: chosen[i].url == url
  }

  /** The same of the pairs selection works on. */
  predicate PreferredPairs(score: Score, ps: seq<S.Pair>, selected: seq<S.Pair>, required: seq<Question>) {
    forall p, s | p in ps && p !in selected && s in selected && RanksBefore(score, p, s) :: S.Prefers(s, p, required)
  }

  lemma FairPrefers(score: Score, ps: seq<S.Pair>, ranked: seq<S.Pair>, selected: seq<S.Pair>, required: seq<Question>)
    requires Ranked(score, ranked) && S.Fair(selected, ranked, required) && S.AllFrom(selected, ranked)
    requires forall p :: p in ps <==> p in ranked
    ensures PreferredPairs(score, ps, selected, required)
  {
    forall p, s | p in ps && p !in selected && s in selected && RanksBefore(score, p, s)
      ensures S.Prefers(s, p, required)
    {
      var k :| 0 <= k < |selected| && selected[k] == s;
      var i :| 0 <= i < |ranked| && ranked[i] == p;
      var j :| 0 <= j < |ranked| && ranked[j] == s;
      assert i < j;
    }
  }

  ghost predicate MergedResult(canon: M.Canonical, hits: seq<M.Hit>, result: M.Result) {
    && result.url in M.Keys(canon, hits)
    && M.EntryRight(canon, hits, result.url, M.Entry(M.Discovery(canon, hits, result.url), result))
  }

  // ---- Reading the pages -------------------------------------------------

  /** The result was found for one of the query's questions, or for none in particular. */
  predicate Concerns(query: Query, result: M.Result) {
    result.questions == [] || exists q | q in query.questions :: q in result.questions
  }

  function TextsFor(asked: seq<Query>, result: M.Result): seq<Text> {
    if asked == [] then []
    else
      var n := |asked| - 1;
      TextsFor(asked[..n], result) + if Concerns(asked[n], result) then [asked[n].text] else []
  }

  /** The texts with a space between one and the next. */
  function Spaced(texts: seq<Text>): Text {
    if texts == [] then []
    else if |texts| == 1 then texts[0]
    else Spaced(texts[..|texts| - 1]) + [0x20] + texts[|texts| - 1]
  }

  /** What a page is asked about: all queries that concern its result, or else the first one. */
  function PageQuery(asked: seq<Query>, result: M.Result): Text {
    var text := Spaced(TextsFor(asked, result));
    if text != [] || asked == [] then text else asked[0].text
  }

  /** The queries at these places, and no others, concern the result. */
  ghost predicate ConcernAt(asked: seq<Query>, result: M.Result, places: seq<nat>) {
    && (forall j, k | 0 <= j < k < |places| :: places[j] < places[k])
    && forall i: nat :: i in places <==>
         i < |asked| && (result.questions == [] || exists q :: q in asked[i].questions && q in result.questions)
  }

  lemma ConcernMore(asked: seq<Query>, query: Query, result: M.Result, places: seq<nat>)
    requires ConcernAt(asked, result, places)
    ensures ConcernAt(asked + [query], result, if Concerns(query, result) then places + [|asked|] else places)
  {
    assert forall k | 0 <= k < |places| :: places[k] in places;
  }

  /** The texts stand at these places. */
  predicate TextsAt(asked: seq<Query>, places: seq<nat>, texts: seq<Text>) {
    |texts| == |places| && forall k | 0 <= k < |places| :: places[k] < |asked| && texts[k] == asked[places[k]].text
  }

  lemma {:induction false} TextsForIs(asked: seq<Query>, result: M.Result) returns (places: seq<nat>)
    ensures ConcernAt(asked, result, places) && TextsAt(asked, places, TextsFor(asked, result))
  {
    if asked == [] {
      places := [];
    } else {
      var n := |asked| - 1;
      places := TextsForIs(asked[..n], result);
      SplitLast(asked);
      ConcernMore(asked[..n], asked[n], result, places);
      if Concerns(asked[n], result) {
        places := places + [n];
      }
    }
  }

  lemma SpacedNotEmpty(texts: seq<Text>)
    requires texts != [] && texts[0] != []
    ensures Spaced(texts) != []
  {
  }

  /** A page is asked about the texts of exactly the queries that concern its result, in order and with spaces between;
      about the first query if there are none. */
  lemma PageQueryIs(asked: seq<Query>, result: M.Result) returns (places: seq<nat>, texts: seq<Text>)
    requires asked != [] && forall i | 0 <= i < |asked| :: asked[i].text != []
    ensures ConcernAt(asked, result, places) && TextsAt(asked, places, texts)
    ensures PageQuery(asked, result) == if places == [] then asked[0].text else Spaced(texts)
  {
    places := TextsForIs(asked, result);
    texts := TextsFor(asked, result);
    if texts != [] {
      SpacedNotEmpty(texts);
    }
  }

  function PageOf(fetch: Fetch, asked: seq<Query>, result: M.Result): Page {
    fetch(result.url, PageQuery(asked, result))
  }

  /** Each result is as chosen, but with the excerpt of its page for a snippet if that could be fetched. */
  predicate PagesRead(fetch: Fetch, asked: seq<Query>, chosen: seq<M.Result>, results: seq<M.Result>) {
    && |results| == |chosen|
    && forall i | 0 <= i < |chosen| ::
         results[i] == match PageOf(fetch, asked, chosen[i])
                       case Fetched(excerpt) => chosen[i].(snippet := excerpt)
                       case FetchError => chosen[i]
  }

  predicate PagesCalled(fetch: Fetch, asked: seq<Query>, chosen: seq<M.Result>, calls: seq<Call>) {
    && |calls| == |chosen|
    && forall i | 0 <= i < |chosen| :: calls[i] == Scraped(chosen[i].url, PageOf(fetch, asked, chosen[i]).Fetched?)
  }

  /** Fetch the page of every result: its excerpt takes the place of the snippet, unless fetching fails. */
  method FetchAll(fetch: Fetch, asked: seq<Query>, chosen: seq<M.Result>)
    returns (results: seq<M.Result>, calls: seq<Call>)
    ensures PagesRead(fetch, asked, chosen, results) && PagesCalled(fetch, asked, chosen, calls)
  {
    results, calls := [], [];
    for i := 0 to |chosen|
      invariant PagesRead(fetch, asked, chosen[..i], results) && PagesCalled(fetch, asked, chosen[..i], calls)
    {
      match fetch(chosen[i].url, PageQuery(asked, chosen[i])) {
        case Fetched(excerpt) =>
          results, calls := results + [chosen[i].(snippet := excerpt)], calls + [Scraped(chosen[i].url, true)];
        case FetchError =>
          results, calls := results + [chosen[i]], calls + [Scraped(chosen[i].url, false)];
      }
    }
    assert chosen[..|chosen|] == chosen;
  }

  function ResultsOf(byUrl: map<string, M.Entry>, ps: seq<S.Pair>): (r: seq<M.Result>)
    requires forall i | 0 <= i < |ps| :: ps[i].url in byUrl
    ensures |r| == |ps|
  {
    seq(|ps|, i requires 0 <= i < |ps| => byUrl[ps[i].url].result)
  }

  predicate PairsOfTable(byUrl: map<string, M.Entry>, ps: seq<S.Pair>) {
    forall i | 0 <= i < |ps| :: ps[i].url in byUrl && ps[i].order == byUrl[ps[i].url].order
                                && ps[i].questions == byUrl[ps[i].url].result.questions
  }

  lemma {:induction false} CountInResults(byUrl: map<string, M.Entry>, ps: seq<S.Pair>, q: Question)
    requires PairsOfTable(byUrl, ps)
    ensures CountIn(ResultsOf(byUrl, ps), q) == S.Count(ps, q)
  {
    if ps != [] {
      var n := |ps| - 1;
      assert ResultsOf(byUrl, ps)[..n] == ResultsOf(byUrl, ps[..n]);
      CountInResults(byUrl, ps[..n], q);
    }
  }

  /** Rank the pairs, serve the quotas, fill up, and put the choice in order of discovery. */
  method SelectRanked(ps: seq<S.Pair>, score: Score, required: seq<Question>, limit: nat)
    returns (selected: seq<S.Pair>)
    requires S.DistinctUrls(ps) && limit >= 1
    ensures S.DistinctUrls(selected) && S.Discovered(selected)
    ensures forall i | 0 <= i < |selected| :: selected[i] in ps
    ensures |selected| == S.Least(limit, |ps|)
    ensures forall k | 0 <= k < |required| && S.InReach(k, limit) :: S.Served(selected, ps, required[k])
    ensures PreferredPairs(score, ps, selected, required)
  {
    var ranked := Rank(score, ps);
    RankRanked(score, ps);
    S.SameMembers(ps, ranked);
    S.DistinctByMultiset(ps, ranked);
    assert |ranked| == |multiset(ranked)| == |ps|;
    selected := S.Select(ranked, required, limit);
    FairPrefers(score, ps, ranked, selected, required);
    forall k | 0 <= k < |required| && S.InReach(k, limit) ensures S.Served(selected, ps, required[k]) {
      assert S.Served(selected, ranked, required[k]);
      S.CountAtMost(ps, ranked, required[k]);
    }
  }

  /** The pairs to read, chosen from the merged results. */
  method ChoosePairs(c: M.Collector, score: Score, required: seq<Question>, limit: nat) returns (selected: seq<S.Pair>)
    requires c.Valid() && limit >= 1
    ensures PairsOfTable(c.byUrl, selected)
    ensures S.DistinctUrls(selected) && S.Discovered(selected)
    ensures |selected| == S.Least(limit, |M.Keys(c.canon, c.hits)|)
    ensures forall k | 0 <= k < |required| && S.InReach(k, limit) ::
              S.Count(selected, required[k]) >= S.Least(2, Support(c.canon, c.hits, required[k]))
    ensures PreferredPairs(score, Pairs(c.urls, c.byUrl), selected, required)
  {
    PairsRight(c.canon, c.hits, c.urls, c.byUrl);
    selected := SelectRanked(Pairs(c.urls, c.byUrl), score, required, limit);
    forall k | 0 <= k < |required| && S.InReach(k, limit)
      ensures S.Count(selected, required[k]) >= S.Least(2, Support(c.canon, c.hits, required[k]))
    {
      assert S.Served(selected, Pairs(c.urls, c.byUrl), required[k]);
      CountIsSupport(c.canon, c.hits, c.urls, c.byUrl, required[k]);
    }
  }

  /** The table the pairs come from is what merging the hits gives. */
  ghost predicate Table(canon: M.Canonical, hits: seq<M.Hit>, urls: seq<string>, byUrl: map<string, M.Entry>) {
    M.Merged(canon, hits, byUrl) && M.InOrder(urls, byUrl)
  }

  lemma PairApart(canon: M.Canonical, hits: seq<M.Hit>, urls: seq<string>, byUrl: map<string, M.Entry>,
                  a: string, b: string)
    requires Table(canon, hits, urls, byUrl) && a in byUrl && b in byUrl && a != b && byUrl[a].order <= byUrl[b].order
    ensures M.Discovery(canon, hits, a) < M.Discovery(canon, hits, b)
  {
    assert M.EntryRight(canon, hits, a, byUrl[a]);
    assert M.EntryRight(canon, hits, b, byUrl[b]);
    var i :| 0 <= i < |urls| && urls[i] == a;
    var j :| 0 <= j < |urls| && urls[j] == b;
    assert i != j;
  }

  lemma ResultsMerged(canon: M.Canonical, hits: seq<M.Hit>, urls: seq<string>, byUrl: map<string, M.Entry>,
                      ps: seq<S.Pair>, i: nat)
    requires Table(canon, hits, urls, byUrl) && PairsOfTable(byUrl, ps) && i < |ps|
    ensures ResultsOf(byUrl, ps)[i].url == ps[i].url && MergedResult(canon, hits, ResultsOf(byUrl, ps)[i])
  {
    assert M.EntryRight(canon, hits, ps[i].url, byUrl[ps[i].url]);
  }

  lemma ResultsInOrder(canon: M.Canonical, hits: seq<M.Hit>, urls: seq<string>, byUrl: map<string, M.Entry>,
                       ps: seq<S.Pair>)
    requires Table(canon, hits, urls, byUrl) && PairsOfTable(byUrl, ps) && S.DistinctUrls(ps) && S.Discovered(ps)
    ensures forall i, j | 0 <= i < j < |ps| ::
              M.Discovery(canon, hits, ps[i].url) < M.Discovery(canon, hits, ps[j].url)
  {
    forall i, j | 0 <= i < j < |ps|
      ensures M.Discovery(canon, hits, ps[i].url) < M.Discovery(canon, hits, ps[j].url)
    {
      PairApart(canon, hits, urls, byUrl, ps[i].url, ps[j].url);
    }
  }

  method Choose(c: M.Collector, score: Score, required: seq<Question>, limit: nat) returns (chosen: seq<M.Result>)
    requires c.Valid() && limit >= 1
    ensures Chosen(c.canon, c.hits, required, limit, chosen)
    ensures Preferred(c.canon, c.hits, score, required, chosen)
  {
    var selected := ChoosePairs(c, score, required, limit);
    chosen := ResultsOf(c.byUrl, selected);
    PairsPreferred(c.canon, c.hits, c.urls, c.byUrl, score, required, selected);
    ResultsInOrder(c.canon, c.hits, c.urls, c.byUrl, selected);
    forall i | 0 <= i < |chosen|
      ensures MergedResult(c.canon, c.hits, chosen[i]) && chosen[i].url == selected[i].url
    {
      ResultsMerged(c.canon, c.hits, c.urls, c.byUrl, selected, i);
    }
    forall k | 0 <= k < |required|
      ensures CountIn(chosen, required[k]) == S.Count(selected, required[k])
    {
      CountInResults(c.byUrl, selected, required[k]);
    }
  }

  lemma PairsPreferred(canon: M.Canonical, hits: seq<M.Hit>, urls: seq<string>, byUrl: map<string, M.Entry>,
                       score: Score, required: seq<Question>, selected: seq<S.Pair>)
    requires Table(canon, hits, urls, byUrl) && PairsOfTable(byUrl, selected)
    requires PreferredPairs(score, Pairs(urls, byUrl), selected, required)
    ensures Preferred(canon, hits, score, required, ResultsOf(byUrl, selected))
  {
    var ps, chosen := Pairs(urls, byUrl), ResultsOf(byUrl, selected);
    forall i | 0 <= i < |selected|
      ensures chosen[i].url == selected[i].url && selected[i] == PairOf(canon, hits, selected[i].url)
    {
      ResultsMerged(canon, hits, urls, byUrl, selected, i);
      assert M.EntryRight(canon, hits, selected[i].url, byUrl[selected[i].url]);
    }
    forall url, i | url in M.Keys(canon, hits) && 0 <= i < |chosen| && !IsChosen(chosen, url)
                    && RanksBefore(score, PairOf(canon, hits, url), PairOf(canon, hits, chosen[i].url))
      ensures S.Prefers(PairOf(canon, hits, chosen[i].url), PairOf(canon, hits, url), required)
    {
      PairOfListed(canon, hits, urls, byUrl, url);
      assert PairOf(canon, hits, url) !in selected;
      assert selected[i] in selected;
    }
  }

  lemma PairOfListed(canon: M.Canonical, hits: seq<M.Hit>, urls: seq<string>, byUrl: map<string, M.Entry>, url: string)
    requires Table(canon, hits, urls, byUrl) && url in M.Keys(canon, hits)
    ensures PairOf(canon, hits, url) in Pairs(urls, byUrl)
  {
    PairsRight(canon, hits, urls, byUrl);
    assert url in byUrl;
    var k :| 0 <= k < |urls| && urls[k] == url;
    assert PairRight(canon, hits, Pairs(urls, byUrl)[k]);
  }

  /** The searches of a batch: the tidied queries, then the supplement when it is called for. */
  method SearchAll(c: M.Collector, search: Search, tidy: seq<Query>) returns (asked: seq<Query>, calls: seq<Call>)
    requires c.Valid() && c.hits == [] && tidy != []
    modifies c
    ensures c.Valid() && c.hits == Gathered(search, asked) && calls == SearchCalls(search, asked)
    ensures var missing := Missing(c.canon, Gathered(search, tidy), Required(tidy));
            var text := SupplementText(tidy[0].text);
            asked == if missing != [] && |tidy| < 4 && !HasText(tidy, text) then tidy + [Query(text, missing)] else tidy
  {
    asked := tidy;
    calls := CollectAll(c, search, asked);
    var required := RequiredQuestions(asked);
    var missing := MissingQuestions(c, required);
    var text := SupplementText(asked[0].text);
    if missing != [] && |asked| < 4 && !HasText(asked, text) {
      GatheredAppend(search, asked, Query(text, missing));
      var call := CollectQuery(c, search, Query(text, missing));
      asked, calls := asked + [Query(text, missing)], calls + [call];
    }
  }

  lemma ErrorInCalls(search: Search, asked: seq<Query>)
    ensures SomeError(search, asked) <==> exists i | 0 <= i < |asked| :: !SearchCalls(search, asked)[i].ok
  {
    if SomeError(search, asked) {
      var i :| 0 <= i < |asked| && search(asked[i].text).SearchError?;
      assert !SearchCalls(search, asked)[i].ok;
    }
  }

  /** No query that was answered found anything. */
  predicate NothingFound(search: Search, asked: seq<Query>) {
    forall i | 0 <= i < |asked| && search(asked[i].text).Found? :: search(asked[i].text).results == []
  }

  lemma {:induction false} GatheredNothing(canon: M.Canonical, search: Search, asked: seq<Query>)
    ensures M.Keys(canon, Gathered(search, asked)) == {} <==> NothingFound(search, asked)
  {
    NoHitsNoKeys(canon, Gathered(search, asked));
    if asked != [] {
      var front := asked[..|asked| - 1];
      GatheredNothing(canon, search, front);
      NoHitsNoKeys(canon, Gathered(search, front));
      assert forall i | 0 <= i < |front| :: front[i] == asked[i];
    }
  }

  lemma NoHitsNoKeys(canon: M.Canonical, hits: seq<M.Hit>)
    ensures M.Keys(canon, hits) == {} <==> hits == []
  {
    if hits != [] {
      assert M.KeyOf(canon, hits[0]) in M.Keys(canon, hits);
    }
  }

  /** The first four queries that are not blank are among those asked, stripped. */
  ghost predicate AsksFirstFour(queries: seq<Query>, asked: seq<Query>) {
    forall i | 0 <= i < |queries| && i < 4 && Whitespace.Strip(queries[i].text) != [] ::
      HasText(asked, Whitespace.Strip(queries[i].text))
  }

  lemma FirstFourAsked(queries: seq<Query>, tidy: seq<Query>, asked: seq<Query>)
    requires tidy == Tidy(FirstFour(queries)) && tidy <= asked
    ensures AsksFirstFour(queries, asked)
  {
    var four := FirstFour(queries);
    forall i | 0 <= i < |queries| && i < 4 && Whitespace.Strip(queries[i].text) != []
      ensures HasText(asked, Whitespace.Strip(queries[i].text))
    {
      assert four[i] == queries[i];
      TidyMissesNone(four, i);
      var k :| 0 <= k < |tidy| && tidy[k].text == Whitespace.Strip(queries[i].text);
      assert asked[k] == tidy[k];
    }
  }

  /** A batch of `n` results respects both limits, and has as many results as they and the addresses found allow. */
  predicate AsManyAsAllowed(n: nat, found: nat, resultLimit: int, scrapeLimit: int) {
    && n <= found && n <= 10
    && (resultLimit >= 1 ==> n <= resultLimit) && (scrapeLimit >= 1 ==> n <= scrapeLimit)
    && (resultLimit < 1 || scrapeLimit < 1 ==> n <= 1)
    && (n == found || n == resultLimit || n == scrapeLimit || n == 10
        || (n == 1 && (resultLimit < 1 || scrapeLimit < 1)))
  }

  /** The calls in the order made: a search per query, then a fetch per result. */
  predicate CallsInOrder(search: Search, fetch: Fetch, asked: seq<Query>, chosen: seq<M.Result>, calls: seq<Call>) {
    && |calls| == |asked| + |chosen|
    && (forall i | 0 <= i < |asked| :: calls[i] == Searched(asked[i].text, search(asked[i].text).Found?))
    && (forall i | 0 <= i < |chosen| ::
          calls[|asked| + i] == Scraped(chosen[i].url, PageOf(fetch, asked, chosen[i]).Fetched?))
  }

  /** Choose among what was found, and read the pages chosen. */
  method ReadChosen(c: M.Collector, search: Search, fetch: Fetch, score: Score, required: seq<Question>,
                    asked: seq<Query>, searches: seq<Call>, resultLimit: int, scrapeLimit: int)
    returns (results: seq<M.Result>, calls: seq<Call>, chosen: seq<M.Result>)
    requires c.Valid() && searches == SearchCalls(search, asked)
    ensures CallsInOrder(search, fetch, asked, chosen, calls) && PagesRead(fetch, asked, chosen, results)
    ensures AsManyAsAllowed(|results|, |M.Keys(c.canon, c.hits)|, resultLimit, scrapeLimit)
    ensures Chosen(c.canon, c.hits, required, Limit(resultLimit, scrapeLimit), chosen)
    ensures Preferred(c.canon, c.hits, score, required, chosen)
  {
    chosen := Choose(c, score, required, Limit(resultLimit, scrapeLimit));
    var scrapes;
    results, scrapes := FetchAll(fetch, asked, chosen);
    calls := searches + scrapes;
  }

  /** Raise if nothing was found and a search failed; otherwise choose among what was found and read that. */
  method Answer(c: M.Collector, search: Search, fetch: Fetch, score: Score, required: seq<Question>, asked: seq<Query>,
                searches: seq<Call>, resultLimit: int, scrapeLimit: int)
    returns (outcome: Outcome, chosen: seq<M.Result>)
    requires c.Valid() && c.hits == Gathered(search, asked) && searches == SearchCalls(search, asked)
    ensures outcome.Raised? <==> NothingFound(search, asked) && SomeError(search, asked)
    ensures outcome.Batch? ==>
              && CallsInOrder(search, fetch, asked, chosen, outcome.calls)
              && PagesRead(fetch, asked, chosen, outcome.results)
              && AsManyAsAllowed(|outcome.results|, |M.Keys(c.canon, c.hits)|, resultLimit, scrapeLimit)
              && Chosen(c.canon, c.hits, required, Limit(resultLimit, scrapeLimit), chosen)
              && Preferred(c.canon, c.hits, score, required, chosen)
  {
    ErrorInCalls(search, asked);
    GatheredNothing(c.canon, search, asked);
    if c.byUrl.Keys == {} && exists i | 0 <= i < |searches| :: !searches[i].ok {
      return Raised, [];
    }
    var results, calls;
    results, calls, chosen := ReadChosen(c, search, fetch, score, required, asked, searches, resultLimit, scrapeLimit);
    outcome := Batch(results, calls);
  }

  /** Without queries there is nothing to choose from. */
  lemma NothingAsked(canon: M.Canonical, search: Search, fetch: Fetch, score: Score, required: seq<Question>,
                     resultLimit: int, scrapeLimit: int)
    ensures CallsInOrder(search, fetch, [], [], []) && PagesRead(fetch, [], [], []) && NothingFound(search, [])
    ensures AsManyAsAllowed(0, |M.Keys(canon, Gathered(search, []))|, resultLimit, scrapeLimit)
    ensures Chosen(canon, Gathered(search, []), required, Limit(resultLimit, scrapeLimit), [])
    ensures Preferred(canon, Gathered(search, []), score, required, [])
  {
    NoHitsNoKeys(canon, []);
  }

  /** One batch: at most four searches and at most fourteen provider calls in all, in the order made; what comes back
      was chosen from the merged hits of the queries asked, and carries the excerpt of its page if that could be
      fetched. */
  method SearchBatch(queries: seq<Query>, resultLimit: int, scrapeLimit: int, canon: M.Canonical, search: Search,
                     fetch: Fetch, score: Score)
    returns (outcome: Outcome, asked: seq<Query>, chosen: seq<M.Result>)
    ensures asked == Asked(canon, search, queries) && |asked| <= 4 && AsksFirstFour(queries, asked)
    ensures outcome.Raised? <==>
              NothingFound(search, asked) && SomeError(search, asked)
    ensures outcome.Batch? ==>
              && CallsInOrder(search, fetch, asked, chosen, outcome.calls) && |outcome.calls| <= 14
              && PagesRead(fetch, asked, chosen, outcome.results)
              && AsManyAsAllowed(|outcome.results|, |M.Keys(canon, Gathered(search, asked))|, resultLimit, scrapeLimit)
    ensures outcome.Batch? ==>
              && Chosen(canon, Gathered(search, asked), Required(Tidy(FirstFour(queries))),
                        Limit(resultLimit, scrapeLimit), chosen)
              && Preferred(canon, Gathered(search, asked), score, Required(Tidy(FirstFour(queries))), chosen)
  {
    chosen := [];
    asked := TidyQueries(queries);
    FirstFourAsked(queries, asked, asked);
    if asked == [] {
      NothingAsked(canon, search, fetch, score, Required(Tidy(FirstFour(queries))), resultLimit, scrapeLimit);
      return Batch([], []), asked, chosen;
    }
    ghost var tidy := asked;
    var required := RequiredQuestions(asked);
    var c := new M.Collector(canon);
    var calls;
    asked, calls := SearchAll(c, search, asked);
    FirstFourAsked(queries, tidy, asked);
    outcome, chosen := Answer(c, search, fetch, score, required, asked, calls, resultLimit, scrapeLimit);
  }
}
