/** Merging the results of several searches by canonical address. */
module WebMerge {
  import opened Sequences
  import opened WebTypes

  datatype Result = Result(url: Url, title: string, snippet: string, questions: seq<Question>)

  /** A result as a search returned it, with the questions its query was asked for. */
  datatype Hit = Hit(result: Result, questions: seq<Question>)

  datatype Entry = Entry(order: nat, result: Result)

  type Canonical = Url -> Url

  // ---- First-seen order without duplicates -------------------------------

  function AddNew(qs: seq<Question>, q: Question): seq<Question> {
    if q in qs then qs else qs + [q]
  }

  /** Append what is not there yet. */
  function Extend(qs: seq<Question>, more: seq<Question>): (r: seq<Question>)
    ensures forall q :: q in r <==> q in qs || q in more
    decreases |more|
  {
    if more == [] then qs
    else
      assert more == [more[0]] + more[1..];
      Extend(AddNew(qs, more[0]), more[1..])
  }

  function Dedup(qs: seq<Question>): seq<Question> {
    Extend([], qs)
  }

  lemma {:induction false} ExtendNoRepeats(qs: seq<Question>, more: seq<Question>)
    requires NoRepeats(qs)
    ensures NoRepeats(Extend(qs, more)) && qs <= Extend(qs, more)
    decreases |more|
  {
    if more != [] {
      ExtendNoRepeats(AddNew(qs, more[0]), more[1..]);
    }
  }

  lemma {:induction false} ExtendConcat(qs: seq<Question>, a: seq<Question>, b: seq<Question>)
    ensures Extend(qs, a + b) == Extend(Extend(qs, a), b)
    decreases |a|
  {
    if a == [] {
      assert a + b == b;
    } else {
      ConcatHead(a, b);
      ExtendConcat(AddNew(qs, a[0]), a[1..], b);
    }
  }

  lemma AbsentBefore(p: seq<Question>, qs: seq<Question>)
    requires NoRepeats(p + qs) && qs != []
    ensures qs[0] !in p
  {
    forall i | 0 <= i < |p| ensures p[i] != qs[0] {
      assert (p + qs)[i] != (p + qs)[|p|];
    }
  }

  lemma {:induction false} ExtendAppends(p: seq<Question>, qs: seq<Question>)
    requires NoRepeats(p + qs)
    ensures Extend(p, qs) == p + qs
    decreases |qs|
  {
    if qs == [] {
      assert p + qs == p;
    } else {
      AbsentBefore(p, qs);
      assert p + qs == (p + [qs[0]]) + qs[1..];
      ExtendAppends(p + [qs[0]], qs[1..]);
    }
  }

  /** Re-deduplicating an accumulated list before adding to it changes nothing. */
  lemma DedupAccumulates(a: seq<Question>, b: seq<Question>)
    ensures Dedup(Dedup(a) + b) == Dedup(a + b)
  {
    ExtendNoRepeats([], a);
    ExtendConcat([], Dedup(a), b);
    ExtendConcat([], a, b);
    assert [] + Dedup(a) == Dedup(a);
    ExtendAppends([], Dedup(a));
  }

  // ---- What a merged address should hold ---------------------------------

  function KeyOf(canon: Canonical, hit: Hit): Url {
    canon(hit.result.url)
  }

  function Keys(canon: Canonical, hits: seq<Hit>): set<Url> {
    set i | 0 <= i < |hits| :: KeyOf(canon, hits[i])
  }

  /** The questions of every query that found `url`, in the order found. */
  function FoundFor(canon: Canonical, hits: seq<Hit>, url: Url): seq<Question> {
    if hits == [] then []
    else
      var n := |hits| - 1;
      FoundFor(canon, hits[..n], url) + if KeyOf(canon, hits[n]) == url then hits[n].questions else []
  }

  /** How many addresses had been found before `url` was. */
  function Discovery(canon: Canonical, hits: seq<Hit>, url: Url): nat {
    if hits == [] then 0
    else
      var n := |hits| - 1;
      if url in Keys(canon, hits[..n]) then Discovery(canon, hits[..n], url) else |Keys(canon, hits[..n])|
  }

  /** The entry is the first of the hits on its address with the longest snippet there is, under the canonical address
      and with every question it was found for. */
  ghost predicate EntryRight(canon: Canonical, hits: seq<Hit>, url: Url, e: Entry) {
    && e.order == Discovery(canon, hits, url)
    && e.result.questions == Dedup(FoundFor(canon, hits, url))
    && (exists i | 0 <= i < |hits| ::
          && KeyOf(canon, hits[i]) == url && e.result == hits[i].result.(url := url, questions := e.result.questions)
          && FirstLongest(canon, hits, url, i))
  }

  predicate FirstLongest(canon: Canonical, hits: seq<Hit>, url: Url, i: nat)
    requires i < |hits|
  {
    forall k | 0 <= k < |hits| && k != i && KeyOf(canon, hits[k]) == url ::
      if k < i then |hits[k].result.snippet| < |hits[i].result.snippet|
      else |hits[k].result.snippet| <= |hits[i].result.snippet|
  }

  ghost predicate Merged(canon: Canonical, hits: seq<Hit>, byUrl: map<Url, Entry>) {
    && byUrl.Keys == Keys(canon, hits)
    && forall url | url in byUrl :: EntryRight(canon, hits, url, byUrl[url])
  }

  lemma KeysAppend(canon: Canonical, hits: seq<Hit>, hit: Hit)
    ensures Keys(canon, hits + [hit]) == Keys(canon, hits) + {KeyOf(canon, hit)}
  {
    var all := hits + [hit];
    forall url ensures url in Keys(canon, all) <==> url in Keys(canon, hits) + {KeyOf(canon, hit)} {
      if url in Keys(canon, hits) {
        var i :| 0 <= i < |hits| && KeyOf(canon, hits[i]) == url;
        assert KeyOf(canon, all[i]) == url;
      }
      if url == KeyOf(canon, hit) {
        assert KeyOf(canon, all[|hits|]) == url;
      }
    }
  }

  lemma NeverFound(canon: Canonical, hits: seq<Hit>, url: Url)
    requires url !in Keys(canon, hits)
    ensures FoundFor(canon, hits, url) == []
  {
    if hits != [] {
      var n := |hits| - 1;
      assert KeyOf(canon, hits[n]) != url;
      forall u | u in Keys(canon, hits[..n]) ensures u in Keys(canon, hits) {
        var i :| 0 <= i < n && KeyOf(canon, hits[..n][i]) == u;
        assert KeyOf(canon, hits[i]) == u;
      }
      NeverFound(canon, hits[..n], url);
    }
  }

  lemma OthersUnchanged(canon: Canonical, hits: seq<Hit>, hit: Hit, url: Url, e: Entry)
    requires url in Keys(canon, hits) && KeyOf(canon, hit) != url && EntryRight(canon, hits, url, e)
    ensures EntryRight(canon, hits + [hit], url, e)
  {
    var all := hits + [hit];
    assert all[..|hits|] == hits;
    assert FoundFor(canon, all, url) == FoundFor(canon, hits, url) + [] == FoundFor(canon, hits, url);
    var i :| 0 <= i < |hits| && KeyOf(canon, hits[i]) == url && FirstLongest(canon, hits, url, i)
             && e.result == hits[i].result.(url := url, questions := e.result.questions);
    assert KeyOf(canon, all[i]) == url && e.result == all[i].result.(url := url, questions := e.result.questions);
    assert FirstLongest(canon, all, url, i);
  }

  /** The entry for the address just hit. */
  function Updated(canon: Canonical, byUrl: map<Url, Entry>, hit: Hit): Entry {
    var key := KeyOf(canon, hit);
    var known := if key in byUrl then byUrl[key].result.questions else [];
    var questions := Dedup(known + hit.questions);
    var candidate := hit.result.(url := key, questions := questions);
    if key !in byUrl then Entry(|byUrl|, candidate)
    else if |candidate.snippet| > |byUrl[key].result.snippet| then Entry(byUrl[key].order, candidate)
    else Entry(byUrl[key].order, byUrl[key].result.(questions := questions))
  }

  lemma UpdatedFirst(canon: Canonical, hits: seq<Hit>, byUrl: map<Url, Entry>, hit: Hit)
    requires Merged(canon, hits, byUrl) && KeyOf(canon, hit) !in byUrl
    ensures EntryRight(canon, hits + [hit], KeyOf(canon, hit), Updated(canon, byUrl, hit))
  {
    var all, url := hits + [hit], KeyOf(canon, hit);
    assert all[..|hits|] == hits && all[|hits|] == hit;
    NeverFound(canon, hits, url);
    assert FoundFor(canon, all, url) == [] + hit.questions;
    assert |byUrl| == |byUrl.Keys|;
    forall i | 0 <= i < |hits| ensures KeyOf(canon, all[i]) != url {
      assert KeyOf(canon, hits[i]) in Keys(canon, hits);
    }
    var n := Updated(canon, byUrl, hit);
    assert n.result == all[|hits|].result.(url := url, questions := n.result.questions);
    assert FirstLongest(canon, all, url, |hits|);
  }

  lemma UpdatedAgain(canon: Canonical, hits: seq<Hit>, byUrl: map<Url, Entry>, hit: Hit)
    requires Merged(canon, hits, byUrl) && KeyOf(canon, hit) in byUrl
    ensures EntryRight(canon, hits + [hit], KeyOf(canon, hit), Updated(canon, byUrl, hit))
  {
    var all, url := hits + [hit], KeyOf(canon, hit);
    var e, n := byUrl[url], Updated(canon, byUrl, hit);
    assert all[..|hits|] == hits && all[|hits|] == hit;
    assert EntryRight(canon, hits, url, e);
    DedupAccumulates(FoundFor(canon, hits, url), hit.questions);
    var i :| 0 <= i < |hits| && KeyOf(canon, hits[i]) == url && FirstLongest(canon, hits, url, i)
             && e.result == hits[i].result.(url := url, questions := e.result.questions);
    if |hit.result.snippet| > |e.result.snippet| {
      assert n.result == all[|hits|].result.(url := url, questions := n.result.questions);
      assert FirstLongest(canon, all, url, |hits|);
    } else {
      assert KeyOf(canon, all[i]) == url && n.result == all[i].result.(url := url, questions := n.result.questions);
      assert FirstLongest(canon, all, url, i);
    }
  }

  lemma MergeKeepsMerged(canon: Canonical, hits: seq<Hit>, byUrl: map<Url, Entry>, hit: Hit)
    requires Merged(canon, hits, byUrl)
    ensures Merged(canon, hits + [hit], byUrl[KeyOf(canon, hit) := Updated(canon, byUrl, hit)])
  {
    var key := KeyOf(canon, hit);
    var n := byUrl[key := Updated(canon, byUrl, hit)];
    KeysAppend(canon, hits, hit);
    forall url | url in n ensures EntryRight(canon, hits + [hit], url, n[url]) {
      if url != key {
        OthersUnchanged(canon, hits, hit, url, byUrl[url]);
      } else if key in byUrl {
        UpdatedAgain(canon, hits, byUrl, hit);
      } else {
        UpdatedFirst(canon, hits, byUrl, hit);
      }
    }
  }

  /** The addresses in the order they were entered, which is the order of discovery. */
  predicate InOrder(urls: seq<Url>, byUrl: map<Url, Entry>) {
    && (forall i | 0 <= i < |urls| :: urls[i] in byUrl && byUrl[urls[i]].order == i)
    && (forall url | url in byUrl :: url in urls)
  }

  lemma InOrderSize(urls: seq<Url>, byUrl: map<Url, Entry>)
    requires InOrder(urls, byUrl)
    ensures |urls| == |byUrl|
  {
    forall i, j | 0 <= i < j < |urls| ensures urls[i] != urls[j] {
      assert byUrl[urls[i]].order != byUrl[urls[j]].order;
    }
    DistinctSize(urls);
    assert (set u | u in urls) == byUrl.Keys;
  }

  lemma InOrderAppend(urls: seq<Url>, byUrl: map<Url, Entry>, url: Url, e: Entry)
    requires InOrder(urls, byUrl) && url !in byUrl && e.order == |byUrl|
    ensures InOrder(urls + [url], byUrl[url := e])
  {
    InOrderSize(urls, byUrl);
  }

  // ---- Collecting --------------------------------------------------------

  /** What the search provider does with one query. */
  datatype Answer = Found(results: seq<Result>) | SearchError

  function HitsOf(results: seq<Result>, questions: seq<Question>): (r: seq<Hit>)
    ensures |r| == |results|
  {
    seq(|results|, i requires 0 <= i < |results| => Hit(results[i], questions))
  }

  /** What one batch of queries accumulates. */
  class Collector {
    const canon: Canonical
    var byUrl: map<Url, Entry>
    var urls: seq<Url>
    ghost var hits: seq<Hit>

    constructor (canon: Canonical)
      ensures Valid() && hits == [] && this.canon == canon
    {
      this.canon := canon;
      byUrl, urls, hits := map[], [], [];
      new;
      assert Keys(canon, []) == {};
    }

    ghost predicate Valid()
      reads this
    {
      Merged(canon, hits, byUrl) && InOrder(urls, byUrl)
    }

    method Merge(result: Result, questions: seq<Question>)
      requires Valid()
      modifies this
      ensures Valid() && hits == old(hits) + [Hit(result, questions)]
    {
      MergeKeepsMerged(canon, hits, byUrl, Hit(result, questions));
      InOrderSize(urls, byUrl);
      hits := hits + [Hit(result, questions)];
      var key := canon(result.url);
      var known := if key in byUrl then byUrl[key].result.questions else [];
      var merged := Dedup(known + questions);
      var candidate := result.(url := key, questions := merged);
      if key !in byUrl {
        InOrderAppend(urls, byUrl, key, Entry(|urls|, candidate));
        byUrl := byUrl[key := Entry(|urls|, candidate)];
        urls := urls + [key];
      } else if |candidate.snippet| > |byUrl[key].result.snippet| {
        byUrl := byUrl[key := Entry(byUrl[key].order, candidate)];
      } else {
        byUrl := byUrl[key := Entry(byUrl[key].order, byUrl[key].result.(questions := merged))];
      }
    }

    method MergeAll(results: seq<Result>, questions: seq<Question>)
      requires Valid()
      modifies this
      ensures Valid() && hits == old(hits) + HitsOf(results, questions)
    {
      ghost var found, before := HitsOf(results, questions), hits;
      for i := 0 to |results|
        invariant Valid() && hits == before + found[..i]
      {
        Merge(results[i], questions);
        assert before + found[..i] + [found[i]] == before + found[..i + 1];
      }
      assert found[..|results|] == found;
    }
  }
}
