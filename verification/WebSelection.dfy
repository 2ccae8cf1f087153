/** Picking the search results to read: quotas per required question, then rank, then discovery order. */
module WebSelection {
  import opened Sequences
  import opened WebTypes

  /** A merged result: when its address was first discovered, and the questions it speaks to. */
  datatype Pair = Pair(order: nat, url: Url, questions: seq<Question>)

  predicate DistinctUrls(ps: seq<Pair>) {
    forall i, j | 0 <= i < j < |ps| :: ps[i].url != ps[j].url
  }

  predicate HasUrl(ps: seq<Pair>, url: Url) {
    exists i | 0 <= i < |ps| :: ps[i].url == url
  }

  /** How many of the pairs carry the question. */
  function Count(ps: seq<Pair>, q: Question): nat {
    if ps == [] then 0 else Count(ps[..|ps| - 1], q) + if q in ps[|ps| - 1].questions then 1 else 0
  }

  lemma CountAppend(ps: seq<Pair>, p: Pair, q: Question)
    ensures Count(ps + [p], q) == Count(ps, q) + if q in p.questions then 1 else 0
  {
    assert (ps + [p])[..|ps|] == ps;
  }

  function Carrying(ps: seq<Pair>, q: Question): set<Pair> {
    set p | p in ps && q in p.questions
  }

  lemma {:induction false} CountIsSize(ps: seq<Pair>, q: Question)
    requires DistinctUrls(ps)
    ensures Count(ps, q) == |Carrying(ps, q)|
  {
    if ps != [] {
      var n := |ps| - 1;
      CountIsSize(ps[..n], q);
      assert ps == ps[..n] + [ps[n]];
      assert ps[n] !in ps[..n];
      if q in ps[n].questions {
        assert Carrying(ps, q) == Carrying(ps[..n], q) + {ps[n]};
      } else {
        assert Carrying(ps, q) == Carrying(ps[..n], q);
      }
    }
  }

  lemma CountAtMost(a: seq<Pair>, b: seq<Pair>, q: Question)
    requires DistinctUrls(a) && DistinctUrls(b)
    requires forall p | p in a && q in p.questions :: p in b
    ensures Count(a, q) <= Count(b, q)
  {
    CountIsSize(a, q);
    CountIsSize(b, q);
    SubsetSize(Carrying(a, q), Carrying(b, q));
  }

  predicate AllFrom(ps: seq<Pair>, ranked: seq<Pair>) {
    forall i | 0 <= i < |ps| :: ps[i] in ranked
  }

  /** Distinct results out of the ranking, at most `limit`. */
  predicate Selection(ps: seq<Pair>, ranked: seq<Pair>, limit: nat) {
    DistinctUrls(ps) && AllFrom(ps, ranked) && |ps| <= limit
  }

  function Least(a: nat, b: nat): nat {
    if a <= b then a else b
  }

  /** The question has two results, or all there are. */
  predicate Served(ps: seq<Pair>, ranked: seq<Pair>, q: Question) {
    Count(ps, q) >= Least(2, Count(ranked, q))
  }

  lemma ServedMore(ps: seq<Pair>, p: Pair, ranked: seq<Pair>, q: Question)
    requires Served(ps, ranked, q)
    ensures Served(ps + [p], ranked, q)
  {
    CountAppend(ps, p, q);
  }

  lemma KeepsSelection(ps: seq<Pair>, p: Pair, ranked: seq<Pair>, limit: nat)
    requires Selection(ps, ranked, limit) && p in ranked && !HasUrl(ps, p.url) && |ps| < limit
    ensures Selection(ps + [p], ranked, limit)
  {
    forall i | 0 <= i < |ps| ensures ps[i].url != p.url {
    }
  }

  lemma {:induction false} SelectedCountAtMost(ps: seq<Pair>, q: Question)
    ensures Count(ps, q) <= |ps|
  {
    if ps != [] {
      SelectedCountAtMost(ps[..|ps| - 1], q);
    }
  }

  predicate Prefers(p: Pair, over: Pair, required: seq<Question>) {
    exists q | q in required :: q in p.questions && q !in over.questions
  }

  /** A higher rank is passed over only for a required question it does not carry. */
  ghost predicate Fair(ps: seq<Pair>, ranked: seq<Pair>, required: seq<Question>) {
    forall i, j | 0 <= i < j < |ranked| && ranked[j] in ps && ranked[i] !in ps ::
      Prefers(ranked[j], ranked[i], required)
  }

  lemma FairAppend(ps: seq<Pair>, ranked: seq<Pair>, required: seq<Question>, m: nat, q: Question)
    requires DistinctUrls(ranked) && Fair(ps, ranked, required) && m < |ranked|
    requires q in required && q in ranked[m].questions
    requires forall k | 0 <= k < m && q in ranked[k].questions :: ranked[k] in ps
    ensures Fair(ps + [ranked[m]], ranked, required)
  {
    var more := ps + [ranked[m]];
    forall i, j | 0 <= i < j < |ranked| && ranked[j] in more && ranked[i] !in more
      ensures Prefers(ranked[j], ranked[i], required)
    {
      assert ranked[i] !in ps;
      if ranked[j] in ps {
        assert Prefers(ranked[j], ranked[i], required);
      } else {
        assert ranked[j].url == ranked[m].url && j == m;
        assert q !in ranked[i].questions;
      }
    }
  }

  lemma FairFill(ps: seq<Pair>, ranked: seq<Pair>, required: seq<Question>, m: nat)
    requires DistinctUrls(ranked) && Fair(ps, ranked, required) && m < |ranked|
    requires forall k | 0 <= k < m :: ranked[k] in ps
    ensures Fair(ps + [ranked[m]], ranked, required)
  {
    var more := ps + [ranked[m]];
    forall i, j | 0 <= i < j < |ranked| && ranked[j] in more && ranked[i] !in more
      ensures Prefers(ranked[j], ranked[i], required)
    {
      assert ranked[i] !in ps && i > m;
      assert ranked[j] in ps;
    }
  }

  /** Where serving a question stands before the pair at `i`. */
  ghost predicate Serving(ps: seq<Pair>, ranked: seq<Pair>, required: seq<Question>, limit: nat, q: Question,
                          before: seq<Pair>, i: nat)
  {
    && i <= |ranked| && Selection(ps, ranked, limit) && before <= ps && Fair(ps, ranked, required)
    && Count(ps, q) == Count(before, q) + |ps| - |before|
    && forall k | 0 <= k < i && q in ranked[k].questions :: ranked[k] in ps
  }

  lemma PassOver(ps: seq<Pair>, ranked: seq<Pair>, required: seq<Question>, limit: nat, q: Question,
                 before: seq<Pair>, i: nat)
    requires DistinctUrls(ranked) && i < |ranked| && Serving(ps, ranked, required, limit, q, before, i)
    requires HasUrl(ps, ranked[i].url) || q !in ranked[i].questions
    ensures Serving(ps, ranked, required, limit, q, before, i + 1)
  {
    SelectedSame(ps, ranked, i);
  }

  lemma Pick(ps: seq<Pair>, ranked: seq<Pair>, required: seq<Question>, limit: nat, q: Question,
             before: seq<Pair>, i: nat)
    requires DistinctUrls(ranked) && i < |ranked| && Serving(ps, ranked, required, limit, q, before, i)
    requires !HasUrl(ps, ranked[i].url) && q in ranked[i].questions && q in required && |ps| < limit
    ensures Serving(ps + [ranked[i]], ranked, required, limit, q, before, i + 1)
    ensures Count(ps + [ranked[i]], q) == Count(ps, q) + 1
  {
    KeepsSelection(ps, ranked[i], ranked, limit);
    CountAppend(ps, ranked[i], q);
    FairAppend(ps, ranked, required, i, q);
  }

  /** Add results for one question: until two selected results carry it, the limit is reached, or none are left. The
      check follows the addition, so a question served before still gets one more. */
  method ServeQuestion(ranked: seq<Pair>, required: seq<Question>, q: Question, limit: nat, before: seq<Pair>)
    returns (selected: seq<Pair>)
    requires DistinctUrls(ranked) && Selection(before, ranked, limit) && |before| < limit
    requires q in required && Fair(before, ranked, required)
    ensures Selection(selected, ranked, limit) && Fair(selected, ranked, required)
    ensures before <= selected && |selected| <= |before| + 2
    ensures |before| + 2 <= limit ==> Served(selected, ranked, q)
  {
    selected := before;
    for i := 0 to |ranked|
      invariant Serving(selected, ranked, required, limit, q, before, i) && |selected| < limit
      invariant |selected| > |before| ==> Count(selected, q) < 2
    {
      var pair := ranked[i];
      if HasUrl(selected, pair.url) || q !in pair.questions {
        PassOver(selected, ranked, required, limit, q, before, i);
        continue;
      }
      Pick(selected, ranked, required, limit, q, before, i);
      selected := selected + [pair];
      if Count(selected, q) >= 2 {
        return;
      }
      if |selected| >= limit {
        return;
      }
    }
    CountAtMost(ranked, selected, q);
  }

  lemma SelectedSame(ps: seq<Pair>, ranked: seq<Pair>, i: nat)
    requires DistinctUrls(ranked) && AllFrom(ps, ranked) && i < |ranked|
    ensures HasUrl(ps, ranked[i].url) ==> ranked[i] in ps
  {
    if HasUrl(ps, ranked[i].url) {
      var k :| 0 <= k < |ps| && ps[k].url == ranked[i].url;
      assert ps[k] in ranked;
      var j :| 0 <= j < |ranked| && ranked[j] == ps[k];
      assert i == j;
    }
  }

  lemma {:induction false} ServedByPrefix(before: seq<Pair>, selected: seq<Pair>, ranked: seq<Pair>, q: Question)
    requires before <= selected && Served(before, ranked, q)
    ensures Served(selected, ranked, q)
    decreases |selected|
  {
    if |before| < |selected| {
      var n := |selected| - 1;
      ServedByPrefix(before, selected[..n], ranked, q);
      assert selected == selected[..n] + [selected[n]];
      ServedMore(selected[..n], selected[n], ranked, q);
    } else {
      assert before == selected;
    }
  }

  /** There is room for two results for each question up to the `k`-th. */
  predicate InReach(k: nat, limit: nat) {
    2 * (k + 1) <= limit
  }

  /** The quota round. */
  method ServeQuestions(ranked: seq<Pair>, required: seq<Question>, limit: nat) returns (selected: seq<Pair>)
    requires DistinctUrls(ranked) && limit >= 1
    ensures Selection(selected, ranked, limit) && Fair(selected, ranked, required)
    ensures forall k | 0 <= k < |required| && InReach(k, limit) :: Served(selected, ranked, required[k])
  {
    selected := [];
    for k := 0 to |required|
      invariant Selection(selected, ranked, limit) && |selected| < limit
      invariant |selected| <= 2 * k && Fair(selected, ranked, required)
      invariant forall j | 0 <= j < k && InReach(j, limit) :: Served(selected, ranked, required[j])
    {
      var before := selected;
      selected := ServeQuestion(ranked, required, required[k], limit, before);
      forall j | 0 <= j < k && InReach(j, limit) ensures Served(selected, ranked, required[j]) {
        ServedByPrefix(before, selected, ranked, required[j]);
      }
      if |selected| >= limit {
        return;
      }
    }
  }

  /** Fill up in rank order. */
  method FillUp(ranked: seq<Pair>, required: seq<Question>, limit: nat, before: seq<Pair>) returns (selected: seq<Pair>)
    requires DistinctUrls(ranked) && Selection(before, ranked, limit) && Fair(before, ranked, required)
    ensures Selection(selected, ranked, limit) && before <= selected && Fair(selected, ranked, required)
    ensures |selected| == Least(limit, |ranked|)
  {
    selected := before;
    for i := 0 to |ranked|
      invariant Selection(selected, ranked, limit) && before <= selected && Fair(selected, ranked, required)
      invariant forall k | 0 <= k < i :: ranked[k] in selected
    {
      if |selected| >= limit {
        SelectionAtMost(selected, ranked, limit);
        return;
      }
      SelectedSame(selected, ranked, i);
      if !HasUrl(selected, ranked[i].url) {
        KeepsSelection(selected, ranked[i], ranked, limit);
        FairFill(selected, ranked, required, i);
        selected := selected + [ranked[i]];
      }
    }
    SelectionAtMost(selected, ranked, limit);
    SelectionAtMost(ranked, selected, |ranked|);
  }

  lemma SelectionAtMost(ps: seq<Pair>, ranked: seq<Pair>, limit: nat)
    requires Selection(ps, ranked, limit) && DistinctUrls(ranked)
    ensures |ps| <= |ranked|
  {
    DistinctSize(ps);
    DistinctSize(ranked);
    SubsetSize(set p | p in ps, set p | p in ranked);
  }

  // ---- Discovery order ---------------------------------------------------

  predicate Discovered(ps: seq<Pair>) {
    forall i, j | 0 <= i < j < |ps| :: ps[i].order <= ps[j].order
  }

  function Insert(p: Pair, ps: seq<Pair>): (r: seq<Pair>)
    ensures |r| == |ps| + 1
    ensures multiset(r) == multiset([p]) + multiset(ps)
  {
    if ps == [] || p.order < ps[0].order then [p] + ps
    else
      assert ps == [ps[0]] + ps[1..];
      [ps[0]] + Insert(p, ps[1..])
  }

  /** Stable order by discovery. */
  function SortByOrder(ps: seq<Pair>): (r: seq<Pair>)
    ensures |r| == |ps|
    ensures multiset(r) == multiset(ps)
  {
    if ps == [] then []
    else
      var n := |ps| - 1;
      assert ps == ps[..n] + [ps[n]];
      Insert(ps[n], SortByOrder(ps[..n]))
  }

  lemma {:induction false} InsertDiscovered(p: Pair, ps: seq<Pair>)
    requires Discovered(ps)
    ensures Discovered(Insert(p, ps))
  {
    if ps != [] && p.order >= ps[0].order {
      InsertDiscovered(p, ps[1..]);
      var r := Insert(p, ps[1..]);
      forall j | 0 <= j < |r| ensures ps[0].order <= r[j].order {
        assert r[j] in multiset(r);
        assert r[j] == p || r[j] in ps[1..];
      }
    }
  }

  lemma {:induction false} SortDiscovered(ps: seq<Pair>)
    ensures Discovered(SortByOrder(ps))
  {
    if ps != [] {
      SortDiscovered(ps[..|ps| - 1]);
      InsertDiscovered(ps[|ps| - 1], SortByOrder(ps[..|ps| - 1]));
    }
  }

  lemma SameMembers(a: seq<Pair>, b: seq<Pair>)
    requires multiset(a) == multiset(b)
    ensures forall p :: p in a <==> p in b
  {
    forall p ensures p in a <==> p in b {
      assert p in a <==> p in multiset(a);
    }
  }

  lemma {:induction false} DistinctByMultiset(a: seq<Pair>, b: seq<Pair>)
    requires multiset(a) == multiset(b) && DistinctUrls(a)
    ensures DistinctUrls(b)
  {
    SameMembers(a, b);
    forall i, j | 0 <= i < j < |b| ensures b[i].url != b[j].url {
      if b[i].url == b[j].url {
        assert b[i] in a && b[j] in a;
        var k :| 0 <= k < |a| && a[k] == b[i];
        var l :| 0 <= l < |a| && a[l] == b[j];
        assert k == l;
        TwiceInMultiset(b, i, j);
        OnceInMultiset(a, k);
      }
    }
  }

  lemma TwiceInMultiset(b: seq<Pair>, i: nat, j: nat)
    requires i < j < |b| && b[i] == b[j]
    ensures multiset(b)[b[i]] >= 2
  {
    assert b == b[..i] + [b[i]] + b[i + 1..j] + [b[j]] + b[j + 1..];
  }

  lemma OnceInMultiset(a: seq<Pair>, k: nat)
    requires DistinctUrls(a) && k < |a|
    ensures multiset(a)[a[k]] == 1
  {
    assert a == a[..k] + [a[k]] + a[k + 1..];
    assert a[k] !in a[..k] && a[k] !in a[k + 1..];
  }

  /** The choice of results to read: distinct addresses out of the merged results, exactly as many as fit the limit or
      exist, in discovery order, preferring higher ranks; and as many required questions as there is room for two
      results each, the first ones first, get two results or all. */
  method Select(ranked: seq<Pair>, required: seq<Question>, limit: nat) returns (selected: seq<Pair>)
    requires DistinctUrls(ranked) && limit >= 1
    ensures Selection(selected, ranked, limit)
    ensures |selected| == Least(limit, |ranked|)
    ensures Discovered(selected) && Fair(selected, ranked, required)
    ensures forall k | 0 <= k < |required| && InReach(k, limit) :: Served(selected, ranked, required[k])
  {
    var quota := ServeQuestions(ranked, required, limit);
    var filled := FillUp(ranked, required, limit, quota);
    selected := SortByOrder(filled);
    SortDiscovered(filled);
    SameMembers(selected, filled);
    DistinctByMultiset(filled, selected);
    forall i | 0 <= i < |selected| ensures selected[i] in ranked {
      assert selected[i] in filled;
      var j :| 0 <= j < |filled| && filled[j] == selected[i];
    }
    forall k | 0 <= k < |required| && InReach(k, limit) ensures Served(selected, ranked, required[k]) {
      ServedByPrefix(quota, filled, ranked, required[k]);
      CountAtMost(filled, selected, required[k]);
    }
  }
}
