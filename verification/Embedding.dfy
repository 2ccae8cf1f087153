/** Embedding a batch of texts: the provider answers in any order, and the answer is used whole or not at all. */
module Embedding {
  import opened Utf8
  import opened Whitespace

  type Vector = seq<real>

  /** A value of a decoded embedding: a finite number, or anything else (a boolean, an infinity, a string, ...). */
  datatype Cell = Finite(value: real) | NotFinite

  datatype Raw = Cells(cells: seq<Cell>) | NotList

  /** An item's own index: left out, an integer, or something that is no integer. */
  datatype Index = Omitted | Number(n: int) | NotNumber

  datatype Item = Item(index: Index, embedding: Raw) | NotItem

  /** What came back: a list of items, or any failure before there is one. */
  datatype Response = Data(items: seq<Item>) | Failed

  type Provider = seq<Text> -> Response

  const TEXT_LIMIT := 2000

  // ---- Validation --------------------------------------------------------

  predicate ValidEmbedding(raw: Raw, dimensions: nat) {
    raw.Cells? && raw.cells != [] && |raw.cells| == dimensions
    && forall i | 0 <= i < |raw.cells| :: raw.cells[i].Finite?
  }

  function Values(cells: seq<Cell>): (r: Vector)
    requires forall i | 0 <= i < |cells| :: cells[i].Finite?
    ensures |r| == |cells|
  {
    seq(|cells|, i requires 0 <= i < |cells| => cells[i].value)
  }

  method ValidateEmbedding(raw: Raw, dimensions: nat) returns (r: Option<Vector>)
    ensures r.Some? <==> ValidEmbedding(raw, dimensions)
    ensures r.Some? ==> r.value == Values(raw.cells)
  {
    if raw.NotList? || raw.cells == [] {
      return None;
    }
    var cells := raw.cells;
    var normalized: Vector := [];
    for i := 0 to |cells|
      invariant forall j | 0 <= j < i :: cells[j].Finite?
      invariant normalized == Values(cells[..i])
    {
      if cells[i].NotFinite? {
        return None;
      }
      normalized := normalized + [cells[i].value];
    }
    assert cells[..|cells|] == cells;
    if |normalized| != dimensions {
      return None;
    }
    return Some(normalized);
  }

  // ---- Which texts are sent ----------------------------------------------

  predicate Blank(text: Text) {
    Strip(text) == []
  }

  function Clip(text: Text): Text {
    if |text| <= TEXT_LIMIT then text else text[..TEXT_LIMIT]
  }

  datatype Sent = Sent(position: nat, text: Text)

  /** The texts that are not blank, with their positions. */
  function Active(texts: seq<Text>): (r: seq<Sent>)
    ensures |r| <= |texts|
    ensures forall k | 0 <= k < |r| :: r[k].position < |texts| && Strip(texts[r[k].position]) != []
    ensures forall k | 0 <= k < |r| :: r[k].text <= texts[r[k].position]
                                       && (r[k].text == texts[r[k].position] || |r[k].text| == 2000)
                                       && |r[k].text| <= 2000
    ensures forall j, k | 0 <= j < k < |r| :: r[j].position < r[k].position
  {
    if texts == [] then []
    else
      var n := |texts| - 1;
      Active(texts[..n]) + if Blank(texts[n]) then [] else [Sent(n, Clip(texts[n]))]
  }

  lemma {:induction false} EveryTextSent(texts: seq<Text>, i: nat)
    requires i < |texts| && Strip(texts[i]) != []
    ensures exists k | 0 <= k < |Active(texts)| :: Active(texts)[k].position == i
  {
    var n := |texts| - 1;
    if i < n {
      EveryTextSent(texts[..n], i);
      var k :| 0 <= k < |Active(texts[..n])| && Active(texts[..n])[k].position == i;
      assert Active(texts)[k].position == i;
    } else {
      assert Active(texts)[|Active(texts)| - 1].position == i;
    }
  }

  function Inputs(active: seq<Sent>): (r: seq<Text>)
    ensures |r| == |active| && forall k | 0 <= k < |r| :: r[k] == active[k].text
  {
    seq(|active|, k requires 0 <= k < |active| => active[k].text)
  }

  // ---- Which answers are usable ------------------------------------------

  /** Where the item at `position` of the answer says it belongs. */
  function Slot(items: seq<Item>, position: nat): Option<int>
    requires position < |items|
  {
    match items[position]
    case NotItem => None
    case Item(Omitted, _) => Some(position)
    case Item(Number(n), _) => Some(n)
    case Item(NotNumber, _) => None
  }

  /** The item at `position` is for the text sent as number `k`: it says so, or says nothing and stands there. */
  predicate BelongsTo(items: seq<Item>, position: nat, k: int)
    requires position < |items|
  {
    items[position].Item? && (items[position].index == Number(k) || (items[position].index.Omitted? && k == position))
  }

  lemma SlotIs(items: seq<Item>, position: nat, k: int)
    requires position < |items|
    ensures Slot(items, position) == Some(k) <==> BelongsTo(items, position, k)
  {
  }

  /** The item is a valid embedding for one of `count` texts, and none before it is for the same one. */
  ghost predicate ItemUsable(items: seq<Item>, position: nat, count: nat, dimensions: nat)
    requires position < |items|
  {
    exists k | 0 <= k < count ::
      && BelongsTo(items, position, k)
      && ValidEmbedding(items[position].embedding, dimensions)
      && forall earlier | 0 <= earlier < position :: !BelongsTo(items, earlier, k)
  }

  ghost predicate Usable(response: Response, count: nat, dimensions: nat) {
    && response.Data?
    && |response.items| == count
    && forall p | 0 <= p < count :: ItemUsable(response.items, p, count, dimensions)
  }

  /** The vector returned for the text sent as number `k`. */
  ghost predicate AnsweredBy(items: seq<Item>, k: nat, v: Option<Vector>) {
    exists p | 0 <= p < |items| ::
      && BelongsTo(items, p, k) && items[p].embedding.Cells?
      && (forall i | 0 <= i < |items[p].embedding.cells| :: items[p].embedding.cells[i].Finite?)
      && v == Some(Values(items[p].embedding.cells))
  }

  lemma FullSubset(a: set<int>, n: nat)
    requires (forall x | x in a :: 0 <= x < n) && |a| == n
    ensures forall k | 0 <= k < n :: k in a
  {
    if n > 0 {
      if n - 1 in a {
        FullSubset(a - {n - 1}, n - 1);
      } else {
        BelowSize(a, n - 1);
      }
    }
  }

  lemma BelowSize(a: set<int>, n: nat)
    requires forall x | x in a :: 0 <= x < n
    ensures |a| <= n
  {
    if n > 0 {
      BelowSize(a - {n - 1}, n - 1);
    } else {
      assert forall x :: x !in a;
      assert a == {};
    }
  }

  // ---- Placing the answers -----------------------------------------------

  predicate HasSlot(items: seq<Item>, p: nat, slot: int)
    requires p <= |items|
  {
    exists q | 0 <= q < p :: BelongsTo(items, q, slot)
  }

  /** The items up to `p` were usable, and `seen` are their slots. */
  ghost predicate Accepted(items: seq<Item>, count: nat, dimensions: nat, p: nat, seen: set<int>) {
    && p <= |items| && |seen| == p
    && (forall q | 0 <= q < p :: ItemUsable(items, q, count, dimensions))
    && (forall x :: x in seen <==> HasSlot(items, p, x))
    && (forall x | x in seen :: 0 <= x < count)
  }

  /** The slots seen are filled with their vectors, the others are still empty. */
  ghost predicate Filled(items: seq<Item>, ordered: seq<Option<Vector>>, seen: set<int>) {
    forall k | 0 <= k < |ordered| :: if k in seen then AnsweredBy(items, k, ordered[k]) else ordered[k] == None
  }

  ghost predicate Placed(items: seq<Item>, count: nat, dimensions: nat, p: nat, ordered: seq<Option<Vector>>,
                         seen: set<int>) {
    Accepted(items, count, dimensions, p, seen) && Filled(items, ordered, seen) && |ordered| == count
  }

  lemma HasSlotNext(items: seq<Item>, p: nat, slot: int)
    requires p < |items|
    ensures HasSlot(items, p + 1, slot) <==> HasSlot(items, p, slot) || BelongsTo(items, p, slot)
  {
    if HasSlot(items, p, slot) {
      var q :| 0 <= q < p && BelongsTo(items, q, slot);
    }
  }

  lemma AcceptOne(items: seq<Item>, count: nat, dimensions: nat, p: nat, seen: set<int>, slot: int)
    requires Accepted(items, count, dimensions, p, seen) && p < |items|
    requires Slot(items, p) == Some(slot) && 0 <= slot < count && slot !in seen
    requires ValidEmbedding(items[p].embedding, dimensions)
    ensures Accepted(items, count, dimensions, p + 1, seen + {slot})
  {
    assert !HasSlot(items, p, slot);
    assert BelongsTo(items, p, slot);
    assert ItemUsable(items, p, count, dimensions);
    forall x ensures x in seen + {slot} <==> HasSlot(items, p + 1, x) {
      HasSlotNext(items, p, x);
    }
  }

  lemma PlaceOne(items: seq<Item>, count: nat, dimensions: nat, p: nat, ordered: seq<Option<Vector>>, seen: set<int>,
                 slot: int, v: Vector)
    requires Placed(items, count, dimensions, p, ordered, seen) && p < |items|
    requires Slot(items, p) == Some(slot) && 0 <= slot < count && slot !in seen
    requires ValidEmbedding(items[p].embedding, dimensions) && v == Values(items[p].embedding.cells)
    ensures Placed(items, count, dimensions, p + 1, ordered[slot := Some(v)], seen + {slot})
  {
    AcceptOne(items, count, dimensions, p, seen, slot);
    assert BelongsTo(items, p, slot);
    assert AnsweredBy(items, slot, Some(v));
  }

  /** An item is usable only where it belongs. */
  lemma UsableHere(items: seq<Item>, count: nat, dimensions: nat, p: nat, slot: int)
    requires p < |items| && Slot(items, p) == Some(slot)
    ensures ItemUsable(items, p, count, dimensions) ==>
              0 <= slot < count && forall earlier | 0 <= earlier < p :: !BelongsTo(items, earlier, slot)
  {
    if ItemUsable(items, p, count, dimensions) {
      var k :| 0 <= k < count && BelongsTo(items, p, k)
               && forall earlier | 0 <= earlier < p :: !BelongsTo(items, earlier, k);
      SlotIs(items, p, k);
    }
  }

  /** A repeated slot is not usable. */
  lemma Repeated(items: seq<Item>, count: nat, dimensions: nat, p: nat, ordered: seq<Option<Vector>>, seen: set<int>)
    requires Placed(items, count, dimensions, p, ordered, seen) && p < |items|
    requires Slot(items, p).Some? && Slot(items, p).value in seen
    ensures !ItemUsable(items, p, count, dimensions)
  {
    var slot := Slot(items, p).value;
    assert HasSlot(items, p, slot);
    var q :| 0 <= q < p && BelongsTo(items, q, slot);
    UsableHere(items, count, dimensions, p, slot);
  }

  /** Put every item in its slot. The answers are usable or refused as a whole; when there are as many as texts sent,
      distinct slots in range leave no slot empty. */
  method PlaceAll(items: seq<Item>, count: nat, dimensions: nat) returns (r: Option<seq<Option<Vector>>>)
    requires |items| == count
    ensures r.Some? <==> Usable(Data(items), count, dimensions)
    ensures r.Some? ==> |r.value| == count && forall k | 0 <= k < count :: AnsweredBy(items, k, r.value[k])
  {
    var ordered: seq<Option<Vector>> := seq(count, _ => None);
    var seen: set<int> := {};
    for position := 0 to |items|
      invariant Placed(items, count, dimensions, position, ordered, seen)
    {
      var slot := Slot(items, position);
      if slot.None? || slot.value < 0 || slot.value >= count {
        if slot.Some? {
          UsableHere(items, count, dimensions, position, slot.value);
        }
        assert !ItemUsable(items, position, count, dimensions);
        return None;
      }
      if slot.value in seen {
        Repeated(items, count, dimensions, position, ordered, seen);
        return None;
      }
      var v := ValidateEmbedding(items[position].embedding, dimensions);
      if v.None? {
        assert !ItemUsable(items, position, count, dimensions);
        return None;
      }
      PlaceOne(items, count, dimensions, position, ordered, seen, slot.value, v.value);
      seen := seen + {slot.value};
      ordered := ordered[slot.value := v];
    }
    FullSubset(seen, count);
    if exists k | 0 <= k < |ordered| :: ordered[k] == None {
      assert false;
    }
    return Some(ordered);
  }

  // ---- The batch ---------------------------------------------------------

  /** Every text that is not blank has the vector returned for it, and blank texts have none. */
  ghost predicate AllAnswered(texts: seq<Text>, items: seq<Item>, results: seq<Option<Vector>>) {
    && |results| == |texts|
    && (forall i | 0 <= i < |texts| && Strip(texts[i]) == [] :: results[i] == None)
    && (forall k | 0 <= k < |Active(texts)| :: AnsweredBy(items, k, results[Active(texts)[k].position]))
  }

  predicate NoneAnswered(texts: seq<Text>, results: seq<Option<Vector>>) {
    |results| == |texts| && forall i | 0 <= i < |results| :: results[i] == None
  }

  /** The first `k` vectors are at their places. */
  predicate Scattered(active: seq<Sent>, ordered: seq<Option<Vector>>, results: seq<Option<Vector>>, k: nat)
    requires |ordered| == |active|
  {
    && k <= |active|
    && forall j | 0 <= j < k :: active[j].position < |results| && results[active[j].position] == ordered[j]
  }

  lemma ScatterOne(active: seq<Sent>, ordered: seq<Option<Vector>>, results: seq<Option<Vector>>, k: nat)
    requires |ordered| == |active| && k < |active| && active[k].position < |results|
    requires Scattered(active, ordered, results, k)
    requires forall j | 0 <= j < k :: active[j].position < active[k].position
    ensures Scattered(active, ordered, results[active[k].position := ordered[k]], k + 1)
  {
  }

  method Scatter(texts: seq<Text>, items: seq<Item>, ordered: seq<Option<Vector>>)
    returns (results: seq<Option<Vector>>)
    requires |ordered| == |Active(texts)| && forall k | 0 <= k < |ordered| :: AnsweredBy(items, k, ordered[k])
    ensures AllAnswered(texts, items, results)
  {
    var active := Active(texts);
    results := seq(|texts|, _ => None);
    for k := 0 to |active|
      invariant |results| == |texts|
      invariant forall i | 0 <= i < |texts| && Blank(texts[i]) :: results[i] == None
      invariant Scattered(active, ordered, results, k)
    {
      ScatterOne(active, ordered, results, k);
      results := results[active[k].position := ordered[k]];
    }
  }

  /** All or nothing: a usable answer gives every text that is not blank the vector returned for it; anything else gives
      no text a vector. */
  method EmbedTexts(enabled: bool, provider: Provider, dimensions: nat, texts: seq<Text>)
    returns (results: seq<Option<Vector>>)
    ensures var inputs := Inputs(Active(texts));
            if enabled && inputs != [] && Usable(provider(inputs), |inputs|, dimensions)
            then AllAnswered(texts, provider(inputs).items, results)
            else NoneAnswered(texts, results)
  {
    results := seq(|texts|, _ => None);
    if !enabled {
      return;
    }
    var active := Active(texts);
    if active == [] {
      return;
    }
    var response := provider(Inputs(active));
    if response.Failed? || |response.items| != |active| {
      return;
    }
    var ordered := PlaceAll(response.items, |active|, dimensions);
    if ordered.Some? {
      results := Scatter(texts, response.items, ordered.value);
    }
  }

  /** An answer without indexes is read in order: the text sent as number `k` gets the vector of item `k`. */
  lemma UnindexedInOrder(texts: seq<Text>, items: seq<Item>, results: seq<Option<Vector>>, k: nat)
    requires AllAnswered(texts, items, results) && k < |Active(texts)|
    requires forall p | 0 <= p < |items| :: items[p].Item? && items[p].index.Omitted?
    ensures k < |items| && items[k].embedding.Cells?
            && (forall i | 0 <= i < |items[k].embedding.cells| :: items[k].embedding.cells[i].Finite?)
            && results[Active(texts)[k].position] == Some(Values(items[k].embedding.cells))
  {
    assert AnsweredBy(items, k, results[Active(texts)[k].position]);
  }

  /** After a usable answer, the texts with a vector are exactly those that are not blank. */
  lemma AnsweredIffNotBlank(texts: seq<Text>, items: seq<Item>, results: seq<Option<Vector>>, i: nat)
    requires AllAnswered(texts, items, results) && i < |texts|
    ensures results[i].Some? <==> Strip(texts[i]) != []
  {
    if Strip(texts[i]) != [] {
      EveryTextSent(texts, i);
      var k :| 0 <= k < |Active(texts)| && Active(texts)[k].position == i;
      assert AnsweredBy(items, k, results[Active(texts)[k].position]);
    }
  }
}
