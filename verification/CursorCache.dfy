/** The cursor shape cache: a byte-budgeted LRU over compressed shapes that agrees with a plain map of last shapes. */
module CursorCache {
  import opened Prelude
  import opened WireFormat

  const MAX_DIMENSION: int := 384
  const MAX_CACHE_BYTES: nat := 0x200_0000
  const MAX_HISTORY: nat := 64

  datatype Shape = Shape(id: nat, hotX: int, hotY: int, width: int, height: int, rgba: Bytes)

  /** A protocol shape, and what the cache keeps of it. */
  datatype Data = Data(id: nat, hotX: int, hotY: int, width: int, height: int, colors: Bytes)

  /** The decoder: the decompressed pixels, if there are exactly as many as asked for. */
  type Decoder = (Bytes, nat) -> Option<Bytes>

  function PixelBytes(d: Data): nat {
    if d.width > 0 && d.height > 0 then d.width * d.height * 4 else 0
  }

  predicate InBounds(d: Data) {
    && 0 < d.width <= MAX_DIMENSION && 0 < d.height <= MAX_DIMENSION
    && 0 <= d.hotX < d.width && 0 <= d.hotY < d.height
    && d.colors != [] && |d.colors| <= MAX_CACHE_BYTES
  }

  function Decoded(decoder: Decoder, d: Data): Option<Shape> {
    var rgba := decoder(d.colors, PixelBytes(d));
    if rgba.None? then None else Some(Shape(d.id, d.hotX, d.hotY, d.width, d.height, rgba.value))
  }

  /** Whether shape data is accepted. */
  predicate Accepts(decoder: Decoder, d: Data) {
    InBounds(d) && Decoded(decoder, d).Some?
  }

  datatype Miss = PendingOrUnknown | BudgetEvicted | CorruptCachedShape

  datatype IdResult = Selected(shape: Shape) | CacheMiss(id: nat, reason: Miss)

  // ---------------------------------------------------------------- the order list and the byte count

  ghost predicate Distinct(order: seq<nat>) {
    forall i, j | 0 <= i < j < |order| :: order[i] != order[j]
  }

  function Remove(order: seq<nat>, id: nat): seq<nat> {
    if order == [] then []
    else if order[0] == id then order[1..]
    else [order[0]] + Remove(order[1..], id)
  }

  function Weight(order: seq<nat>, shapes: map<nat, Data>): nat {
    if order == [] then 0
    else (if order[0] in shapes then |shapes[order[0]].colors| else 0) + Weight(order[1..], shapes)
  }

  lemma {:induction false} RemoveFacts(order: seq<nat>, id: nat)
    requires Distinct(order)
    ensures Distinct(Remove(order, id)) && id !in Remove(order, id)
    ensures forall x :: x in Remove(order, id) <==> x in order && x != id
    ensures |Remove(order, id)| == if id in order then |order| - 1 else |order|
  {
    if order != [] && order[0] != id {
      RemoveFacts(order[1..], id);
      var rest := Remove(order[1..], id);
      forall i | 0 <= i < |rest| ensures rest[i] != order[0] {
        assert rest[i] in order[1..];
        var k :| 0 <= k < |order[1..]| && order[1..][k] == rest[i];
        assert order[k + 1] == rest[i];
      }
    }
  }

  /** Removing keeps the relative order of the rest. */
  lemma {:induction false} RemoveKeepsRank(order: seq<nat>, id: nat, rank: map<nat, nat>)
    requires Distinct(order) && Ranked(order, rank)
    ensures Ranked(Remove(order, id), rank)
  {
    if order != [] && order[0] != id {
      RemoveFacts(order[1..], id);
      RemoveKeepsRank(order[1..], id, rank);
      HeadRanksLowest(order, rank);
      ConsRanked(order[0], Remove(order[1..], id), rank);
    }
  }

  lemma {:induction false} HeadRanksLowest(order: seq<nat>, rank: map<nat, nat>)
    requires order != [] && Ranked(order, rank)
    ensures order[0] in rank
    ensures forall x :: x in order[1..] ==> x in rank && rank[order[0]] < rank[x]
  {
    assert order[0] in order;
    forall x | x in order[1..] ensures x in rank && rank[order[0]] < rank[x] {
      var k :| 0 <= k < |order[1..]| && order[1..][k] == x;
      assert order[k + 1] == x;
    }
  }

  lemma {:induction false} ConsRanked(head: nat, rest: seq<nat>, rank: map<nat, nat>)
    requires Ranked(rest, rank) && head in rank
    requires forall x :: x in rest ==> rank[head] < rank[x]
    ensures Ranked([head] + rest, rank)
  {
  }

  /** The list goes from the least to the most recently used. */
  ghost predicate Ranked(order: seq<nat>, rank: map<nat, nat>) {
    && (forall x :: x in order ==> x in rank)
    && (forall i, j | 0 <= i < j < |order| :: rank[order[i]] < rank[order[j]])
  }

  lemma {:induction false} WeightRemove(order: seq<nat>, id: nat, shapes: map<nat, Data>)
    requires Distinct(order) && id in order && forall x :: x in order ==> x in shapes
    ensures Weight(Remove(order, id), shapes) == Weight(order, shapes) - |shapes[id].colors|
    ensures Weight(order, shapes) >= |shapes[id].colors|
  {
    if order[0] != id {
      WeightRemove(order[1..], id, shapes);
      assert ([order[0]] + Remove(order[1..], id))[1..] == Remove(order[1..], id);
    }
  }

  lemma {:induction false} WeightAppend(order: seq<nat>, id: nat, shapes: map<nat, Data>)
    requires id in shapes
    ensures Weight(order + [id], shapes) == Weight(order, shapes) + |shapes[id].colors|
  {
    if order == [] {
      assert order + [id] == [id];
      assert Weight([], shapes) == 0;
    } else {
      assert (order + [id])[1..] == order[1..] + [id];
      WeightAppend(order[1..], id, shapes);
    }
  }

  lemma {:induction false} WeightAgree(order: seq<nat>, a: map<nat, Data>, b: map<nat, Data>)
    requires forall x :: x in order ==> x in a && x in b && a[x] == b[x]
    ensures Weight(order, a) == Weight(order, b)
  {
    if order != [] {
      WeightAgree(order[1..], a, b);
    }
  }

  /** Putting the newest use last keeps the list in use order. */
  lemma {:induction false} TouchRanked(order: seq<nat>, id: nat, rank: map<nat, nat>, clock: nat)
    requires Distinct(order) && Ranked(order, rank)
    requires forall x :: x in rank ==> rank[x] < clock
    ensures Distinct(Remove(order, id) + [id]) && Ranked(Remove(order, id) + [id], rank[id := clock])
    ensures forall x :: x in Remove(order, id) + [id] <==> x in order || x == id
  {
    RemoveFacts(order, id);
    RemoveKeepsRank(order, id, rank);
    var rest := Remove(order, id);
    assert forall i | 0 <= i < |rest| :: rest[i] in rest && rest[i] != id;
  }

  lemma {:induction false} DropOldest(order: seq<nat>, rank: map<nat, nat>, shapes: map<nat, Data>)
    requires order != [] && Distinct(order) && Ranked(order, rank)
    requires forall x :: x in order <==> x in shapes
    ensures Distinct(order[1..]) && Ranked(order[1..], rank) && order[0] !in order[1..]
    ensures forall x :: x in order[1..] <==> x in shapes && x != order[0]
    ensures Weight(order, shapes) == |shapes[order[0]].colors| + Weight(order[1..], shapes)
  {
    assert order == [order[0]] + order[1..];
    assert order[0] in order;
  }

  lemma {:induction false} RemoveAbsent(order: seq<nat>, id: nat)
    requires id !in order
    ensures Remove(order, id) == order
  {
    if order != [] {
      RemoveAbsent(order[1..], id);
    }
  }

  /** What replacing or adding an entry does to the list and to its weight. */
  lemma {:induction false} InsertFacts(order: seq<nat>, id: nat, rank: map<nat, nat>, clock: nat,
                                       shapes: map<nat, Data>, d: Data)
    requires Distinct(order) && Ranked(order, rank) && forall x :: x in rank ==> rank[x] < clock
    requires forall x :: x in order <==> x in shapes
    ensures var grown, stored := Remove(order, id) + [id], shapes[id := d];
            && Distinct(grown) && Ranked(grown, rank[id := clock]) && (forall x :: x in grown <==> x in stored)
            && Weight(grown, stored)
               == Weight(order, shapes) - (if id in shapes then |shapes[id].colors| else 0) + |d.colors|
            && (id in shapes ==> |shapes[id].colors| <= Weight(order, shapes))
  {
    TouchRanked(order, id, rank, clock);
    RemoveFacts(order, id);
    var rest, stored := Remove(order, id), shapes[id := d];
    if id in shapes {
      WeightRemove(order, id, shapes);
    } else {
      RemoveAbsent(order, id);
    }
    WeightAgree(rest, shapes, stored);
    WeightAppend(rest, id, stored);
  }

  /** Within budget (or down to one shape), the count is far from overflowing. */
  lemma {:induction false} WeightBounded(order: seq<nat>, shapes: map<nat, Data>, budget: nat)
    requires Weight(order, shapes) <= budget || |order| <= 1
    requires forall x :: x in shapes ==> |shapes[x].colors| <= MAX_CACHE_BYTES
    ensures Weight(order, shapes) <= budget + MAX_CACHE_BYTES
  {
    if |order| == 1 {
      assert order[1..] == [];
    }
  }

  function SaturatingSub(a: nat, b: nat): nat {
    if a >= b then a - b else 0
  }

  function SaturatingPlus(a: nat, b: nat): nat {
    if a + b <= U64_MAX then a + b else U64_MAX
  }

  // ---------------------------------------------------------------- the cache as a value

  datatype Cache = Cache(
    shapes: map<nat, Data>,
    order: seq<nat>,
    bytes: nat,
    evicted: seq<nat>,
    selectedId: Option<nat>,
    selected: Option<Shape>)

  const EMPTY := Cache(map[], [], 0, [], None, None)

  /** Stores accepted data and selects it, before any trimming. */
  function Insert(c: Cache, d: Data, shape: Shape): Cache {
    var without := if d.id in c.shapes then SaturatingSub(c.bytes, |c.shapes[d.id].colors|) else c.bytes;
    Cache(c.shapes[d.id := d], Remove(c.order, d.id) + [d.id], SaturatingPlus(without, |d.colors|),
          Remove(c.evicted, d.id), Some(d.id), Some(shape))
  }

  /** The newest 64 evicted ids are remembered. */
  function Remember(evicted: seq<nat>, id: nat): seq<nat> {
    var grown := Remove(evicted, id) + [id];
    if |grown| > MAX_HISTORY then grown[1..] else grown
  }

  /** Takes the least recently used shape out. */
  function Evict(c: Cache): Cache
    requires c.order != [] && c.order[0] in c.shapes
  {
    var id := c.order[0];
    Cache(c.shapes - {id}, c.order[1..], SaturatingSub(c.bytes, |c.shapes[id].colors|), Remember(c.evicted, id),
          c.selectedId, c.selected)
  }

  /** Whether a round of trimming evicts: over budget, and the oldest is a cached shape other than the selection. */
  predicate MustEvict(c: Cache, budget: nat) {
    c.bytes > budget && c.order != [] && c.selectedId != Some(c.order[0]) && c.order[0] in c.shapes
  }

  function Trim(c: Cache, budget: nat): Cache
    decreases |c.order|
  {
    if MustEvict(c, budget) then Trim(Evict(c), budget) else c
  }

  function Store(c: Cache, budget: nat, decoder: Decoder, d: Data): Cache {
    if Accepts(decoder, d) then Trim(Insert(c, d, Decoded(decoder, d).value), budget) else c
  }

  function MissReason(c: Cache, id: nat): Miss {
    if id in c.evicted then BudgetEvicted else PendingOrUnknown
  }

  function Lookup(c: Cache, decoder: Decoder, id: nat): (Cache, IdResult) {
    if id !in c.shapes then (c, CacheMiss(id, MissReason(c, id)))
    else
      var shape := Decoded(decoder, c.shapes[id]);
      if shape.None? then
        (c.(shapes := c.shapes - {id}, bytes := SaturatingSub(c.bytes, |c.shapes[id].colors|), order := Remove(c.order, id)),
         CacheMiss(id, CorruptCachedShape))
      else
        (Cache(c.shapes, Remove(c.order, id) + [id], c.bytes, c.evicted, Some(id), shape), Selected(shape.value))
  }

  // ---------------------------------------------------------------- the cache as an object

  class CursorState {
    const decoder: Decoder
    const budget: nat
    var shapes: map<nat, Data>
    var shapeOrder: seq<nat>
    var cachedBytes: nat
    var evictedIds: seq<nat>
    var selectedId: Option<nat>
    var selectedShape: Option<Shape>

    function View(): Cache
      reads this
    {
      Cache(shapes, shapeOrder, cachedBytes, evictedIds, selectedId, selectedShape)
    }

    constructor (decoder: Decoder, budget: nat)
      ensures View() == EMPTY && this.decoder == decoder && this.budget == budget
    {
      this.decoder := decoder;
      this.budget := budget;
      shapes := map[];
      shapeOrder := [];
      cachedBytes := 0;
      evictedIds := [];
      selectedId := None;
      selectedShape := None;
    }

    /** remove_from_order */
    method RemoveFromOrder(id: nat)
      modifies this`shapeOrder
      ensures shapeOrder == Remove(old(shapeOrder), id)
    {
      shapeOrder := WithoutFirst(shapeOrder, id);
    }

    /** record_eviction */
    method RecordEviction(id: nat)
      requires |evictedIds| <= MAX_HISTORY
      modifies this`evictedIds
      ensures evictedIds == Remember(old(evictedIds), id)
    {
      evictedIds := WithoutFirst(evictedIds, id);
      evictedIds := evictedIds + [id];
      ShorterAfterRemove(old(evictedIds), id);
      if |evictedIds| > MAX_HISTORY {
        evictedIds := evictedIds[1..];
      }
    }

    /** trim_cache: pops the oldest while over budget; a popped selection goes back and ends the loop. */
    method TrimCache()
      requires Tidy(View())
      modifies this`shapes, this`shapeOrder, this`cachedBytes, this`evictedIds
      ensures View() == Trim(old(View()), budget)
    {
      while cachedBytes > budget
        invariant Tidy(View())
        invariant Trim(View(), budget) == Trim(old(View()), budget)
        decreases |shapeOrder|
      {
        if shapeOrder == [] {
          break;
        }
        var id := shapeOrder[0];
        ghost var before := View();
        if selectedId == Some(id) {
          assert |shapeOrder| == 1 && shapeOrder[1..] + [id] == shapeOrder;
          break;
        }
        EvictKeepsTidy(before);
        shapeOrder := shapeOrder[1..];
        cachedBytes := SaturatingSub(cachedBytes, |shapes[id].colors|);
        shapes := shapes - {id};
        RecordEviction(id);
        assert View() == Evict(before);
      }
    }

    /** apply_data: accepted exactly when in bounds and decodable. */
    method ApplyData(d: Data) returns (accepted: bool)
      requires Tidy(View())
      modifies this
      ensures accepted == Accepts(decoder, d)
      ensures View() == Store(old(View()), budget, decoder, d)
    {
      if d.width <= 0 || d.height <= 0 || d.width > MAX_DIMENSION || d.height > MAX_DIMENSION
         || d.hotX < 0 || d.hotY < 0 || d.hotX >= d.width || d.hotY >= d.height {
        return false;
      }
      if d.colors == [] || |d.colors| > MAX_CACHE_BYTES {
        return false;
      }
      var shape := Decoded(decoder, d);
      if shape.None? {
        return false;
      }
      InsertKeepsTidy(View(), d, shape.value);
      Replace(d, shape.value);
      TrimCache();
      accepted := true;
    }

    method Replace(d: Data, shape: Shape)
      modifies this`shapes, this`shapeOrder, this`cachedBytes, this`evictedIds, this`selectedId, this`selectedShape
      ensures View() == Insert(old(View()), d, shape)
    {
      if d.id in shapes {
        cachedBytes := SaturatingSub(cachedBytes, |shapes[d.id].colors|);
        RemoveFromOrder(d.id);
      } else {
        RemoveFromOrder(d.id);
      }
      cachedBytes := SaturatingPlus(cachedBytes, |d.colors|);
      shapes := shapes[d.id := d];
      shapeOrder := shapeOrder + [d.id];
      selectedId := Some(d.id);
      selectedShape := Some(shape);
      evictedIds := WithoutFirst(evictedIds, d.id);
    }

    /** apply_id */
    method ApplyId(id: nat) returns (r: IdResult)
      modifies this`shapes, this`shapeOrder, this`cachedBytes, this`selectedId, this`selectedShape
      ensures (View(), r) == Lookup(old(View()), decoder, id)
    {
      if id !in shapes {
        return CacheMiss(id, if id in evictedIds then BudgetEvicted else PendingOrUnknown);
      }
      var shape := Decoded(decoder, shapes[id]);
      if shape.None? {
        cachedBytes := SaturatingSub(cachedBytes, |shapes[id].colors|);
        shapes := shapes - {id};
        RemoveFromOrder(id);
        return CacheMiss(id, CorruptCachedShape);
      }
      selectedId := Some(id);
      selectedShape := shape;
      RemoveFromOrder(id);
      shapeOrder := shapeOrder + [id];
      r := Selected(shape.value);
    }
  }

  /** The list without the first occurrence of an id. */
  method WithoutFirst(list: seq<nat>, id: nat) returns (r: seq<nat>)
    ensures r == Remove(list, id)
  {
    var i := 0;
    while i < |list| && list[i] != id
      invariant 0 <= i <= |list|
      invariant Remove(list, id) == list[..i] + Remove(list[i..], id)
    {
      assert list[i..][1..] == list[i + 1..];
      Associate(list[..i], [list[i]], Remove(list[i + 1..], id));
      assert list[..i] + [list[i]] == list[..i + 1];
      i := i + 1;
    }
    if i == |list| {
      assert list[..i] + Remove(list[i..], id) == list;
      r := list;
    } else {
      assert list[i..][1..] == list[i + 1..];
      r := list[..i] + list[i + 1..];
    }
  }

  lemma {:induction false} ShorterAfterRemove(list: seq<nat>, id: nat)
    ensures |Remove(list, id)| <= |list|
  {
    if list != [] && list[0] != id {
      ShorterAfterRemove(list[1..], id);
    }
  }

  /** What the methods rely on: the list names the cached shapes once each, with the selection last. */
  ghost predicate Tidy(c: Cache) {
    && Distinct(c.order)
    && (forall x :: x in c.order <==> x in c.shapes)
    && (c.selectedId.Some? <==> c.order != [])
    && (c.selectedId.Some? ==> c.order[|c.order| - 1] == c.selectedId.value)
    && |c.evicted| <= MAX_HISTORY
  }

  lemma {:induction false} EvictKeepsTidy(c: Cache)
    requires Tidy(c) && |c.order| > 1
    ensures c.order[0] in c.shapes && Tidy(Evict(c))
  {
    assert c.order[0] in c.order;
    ShorterAfterRemove(c.evicted, c.order[0]);
    assert c.order == [c.order[0]] + c.order[1..];
  }

  lemma {:induction false} InsertKeepsTidy(c: Cache, d: Data, shape: Shape)
    requires Tidy(c)
    ensures Tidy(Insert(c, d, shape))
  {
    RemoveFacts(c.order, d.id);
    ShorterAfterRemove(c.evicted, d.id);
    var rest := Remove(c.order, d.id);
    assert forall i | 0 <= i < |rest| :: rest[i] in rest && rest[i] != d.id;
  }

  // ---------------------------------------------------------------- the cache against a plain map

  /** The reference: the last accepted data of every id, and when each id was last stored or selected. */
  datatype Reference = Reference(last: map<nat, Data>, usedAt: map<nat, nat>, clock: nat)

  function Used(r: Reference, id: nat): Reference {
    r.(usedAt := r.usedAt[id := r.clock], clock := r.clock + 1)
  }

  datatype Update = PutData(data: Data) | SelectId(id: nat)

  function StepCache(c: Cache, budget: nat, decoder: Decoder, u: Update): Cache {
    if u.PutData? then Store(c, budget, decoder, u.data) else Lookup(c, decoder, u.id).0
  }

  function StepReference(r: Reference, c: Cache, decoder: Decoder, u: Update): Reference {
    if u.PutData? then
      (if Accepts(decoder, u.data) then Used(r.(last := r.last[u.data.id := u.data]), u.data.id) else r)
    else if u.id in c.shapes then Used(r, u.id) else r
  }

  /** The list and the byte count describe the stored shapes, in last-use order. */
  ghost predicate OrderAgrees(c: Cache, r: Reference) {
    && Tidy(c)
    && c.bytes == Weight(c.order, c.shapes)
    && Ranked(c.order, r.usedAt) && (forall x :: x in r.usedAt ==> r.usedAt[x] < r.clock)
  }

  /** What is stored and selected is the last accepted data, which decodes; what was evicted is known but gone. */
  ghost predicate ContentAgrees(c: Cache, r: Reference, decoder: Decoder) {
    && (forall x :: x in c.shapes ==> x in r.last && c.shapes[x] == r.last[x])
    && (forall x :: x in r.last ==> r.last[x].id == x && Accepts(decoder, r.last[x]))
    && (c.selectedId.Some? ==> c.selectedId.value in r.last && c.selected == Decoded(decoder, r.last[c.selectedId.value]))
    && Distinct(c.evicted) && (forall x :: x in c.evicted ==> x !in c.shapes && x in r.last)
  }

  ghost predicate Agrees(c: Cache, r: Reference, decoder: Decoder) {
    OrderAgrees(c, r) && ContentAgrees(c, r, decoder)
  }

  ghost predicate WithinBudget(c: Cache, budget: nat) {
    c.bytes <= budget || |c.order| <= 1
  }

  lemma {:induction false} EvictAgrees(c: Cache, r: Reference, decoder: Decoder)
    requires Agrees(c, r, decoder) && |c.order| > 1
    ensures c.order[0] in c.shapes && Agrees(Evict(c), r, decoder)
    ensures |Evict(c).order| == |c.order| - 1
  {
    EvictOrderAgrees(c, r);
    EvictContentAgrees(c, r, decoder);
  }

  lemma {:induction false} EvictOrderAgrees(c: Cache, r: Reference)
    requires OrderAgrees(c, r) && |c.order| > 1
    ensures c.order[0] in c.shapes && OrderAgrees(Evict(c), r)
  {
    EvictKeepsTidy(c);
    DropOldest(c.order, r.usedAt, c.shapes);
    WeightAgree(c.order[1..], c.shapes, c.shapes - {c.order[0]});
  }

  lemma {:induction false} EvictContentAgrees(c: Cache, r: Reference, decoder: Decoder)
    requires ContentAgrees(c, r, decoder) && c.order != [] && c.order[0] in c.shapes
    ensures ContentAgrees(Evict(c), r, decoder)
  {
    RememberFacts(c.evicted, c.order[0]);
  }

  lemma {:induction false} RememberFacts(evicted: seq<nat>, id: nat)
    requires Distinct(evicted)
    ensures Distinct(Remember(evicted, id))
    ensures forall x :: x in Remember(evicted, id) ==> x in evicted || x == id
  {
    RemoveFacts(evicted, id);
    AppendDistinct(Remove(evicted, id), id);
    var grown := Remove(evicted, id) + [id];
    if |grown| > MAX_HISTORY {
      assert grown == [grown[0]] + grown[1..];
    }
  }

  lemma {:induction false} AppendDistinct(list: seq<nat>, id: nat)
    requires Distinct(list) && id !in list
    ensures Distinct(list + [id])
    ensures forall x :: x in list + [id] <==> x in list || x == id
  {
  }

  /** The first `k` of the use order are gone, each because what stood from it on exceeded the budget. */
  ghost predicate Trimmed(c: Cache, after: Cache, budget: nat, k: nat) {
    && k <= |c.order| && after.order == c.order[k..]
    && (forall x :: x in after.shapes ==> x in c.shapes && after.shapes[x] == c.shapes[x])
    && (k > 0 ==> Weight(c.order[k - 1..], c.shapes) > budget)
    && after.selectedId == c.selectedId && after.selected == c.selected
  }

  lemma {:induction false} TrimAgrees(c: Cache, r: Reference, budget: nat, decoder: Decoder)
    requires Agrees(c, r, decoder)
    ensures Agrees(Trim(c, budget), r, decoder) && WithinBudget(Trim(c, budget), budget)
    ensures exists k: nat :: Trimmed(c, Trim(c, budget), budget, k)
    decreases |c.order|
  {
    if MustEvict(c, budget) {
      assert |c.order| > 1;
      EvictAgrees(c, r, decoder);
      var e := Evict(c);
      TrimAgrees(e, r, budget, decoder);
      var k: nat :| Trimmed(e, Trim(e, budget), budget, k);
      TrimmedCons(c, e, Trim(e, budget), budget, k);
    } else {
      if c.order != [] {
        assert c.order[0] in c.order;
      }
      assert c.order[0..] == c.order;
      assert Trimmed(c, c, budget, 0);
    }
  }

  lemma {:induction false} TrimmedCons(c: Cache, e: Cache, after: Cache, budget: nat, k: nat)
    requires c.order != [] && c.order[0] in c.shapes && e == Evict(c) && c.bytes > budget
    requires c.bytes == Weight(c.order, c.shapes)
    requires Distinct(c.order) && forall x :: x in c.order ==> x in c.shapes
    requires Trimmed(e, after, budget, k)
    ensures Trimmed(c, after, budget, k + 1)
  {
    assert c.order[1..][k..] == c.order[k + 1..];
    assert c.order[0..] == c.order;
    if k > 0 {
      assert c.order[1..][k - 1..] == c.order[k..];
      SuffixAvoidsHead(c.order, k);
      WeightAgree(c.order[k..], c.shapes, e.shapes);
    }
  }

  lemma {:induction false} SuffixAvoidsHead(order: seq<nat>, k: nat)
    requires Distinct(order) && 1 <= k <= |order|
    ensures forall x :: x in order[k..] ==> x != order[0] && x in order
  {
  }

  lemma {:induction false} InsertAgrees(c: Cache, r: Reference, budget: nat, decoder: Decoder, d: Data)
    requires Agrees(c, r, decoder) && WithinBudget(c, budget) && Accepts(decoder, d)
    requires budget + 2 * MAX_CACHE_BYTES <= U64_MAX
    ensures Agrees(Insert(c, d, Decoded(decoder, d).value), StepReference(r, c, decoder, PutData(d)), decoder)
  {
    WeightBounded(c.order, c.shapes, budget);
    InsertOrderAgrees(c, r, decoder, d);
    InsertContentAgrees(c, r, decoder, d);
  }

  lemma {:induction false} InsertOrderAgrees(c: Cache, r: Reference, decoder: Decoder, d: Data)
    requires OrderAgrees(c, r) && Accepts(decoder, d)
    requires c.bytes + |d.colors| <= U64_MAX
    ensures OrderAgrees(Insert(c, d, Decoded(decoder, d).value), StepReference(r, c, decoder, PutData(d)))
  {
    InsertKeepsTidy(c, d, Decoded(decoder, d).value);
    InsertFacts(c.order, d.id, r.usedAt, r.clock, c.shapes, d);
  }

  lemma {:induction false} InsertContentAgrees(c: Cache, r: Reference, decoder: Decoder, d: Data)
    requires ContentAgrees(c, r, decoder) && Accepts(decoder, d)
    ensures ContentAgrees(Insert(c, d, Decoded(decoder, d).value), StepReference(r, c, decoder, PutData(d)), decoder)
  {
    RemoveFacts(c.evicted, d.id);
  }

  lemma {:induction false} LookupAgrees(c: Cache, r: Reference, budget: nat, decoder: Decoder, id: nat)
    requires Agrees(c, r, decoder) && WithinBudget(c, budget)
    ensures Agrees(Lookup(c, decoder, id).0, StepReference(r, c, decoder, SelectId(id)), decoder)
    ensures WithinBudget(Lookup(c, decoder, id).0, budget)
  {
    if id in c.shapes {
      InsertFacts(c.order, id, r.usedAt, r.clock, c.shapes, c.shapes[id]);
      assert c.shapes[id := c.shapes[id]] == c.shapes;
      RemoveFacts(c.order, id);
      assert id in c.order;
      HitAgrees(c, r, decoder, id, Lookup(c, decoder, id).0);
    }
  }

  lemma {:induction false} HitAgrees(c: Cache, r: Reference, decoder: Decoder, id: nat, after: Cache)
    requires OrderAgrees(c, r) && id in c.shapes
    requires after == Cache(c.shapes, Remove(c.order, id) + [id], c.bytes, c.evicted, Some(id), Decoded(decoder, c.shapes[id]))
    requires Distinct(after.order) && Ranked(after.order, r.usedAt[id := r.clock])
    requires forall x :: x in after.order <==> x in c.shapes
    requires Weight(after.order, c.shapes) == c.bytes
    ensures OrderAgrees(after, Used(r, id))
  {
  }

  /** Every run of accepted and refused data and of selections. */
  function RunCache(budget: nat, decoder: Decoder, updates: seq<Update>): Cache {
    if updates == [] then EMPTY
    else StepCache(RunCache(budget, decoder, updates[..|updates| - 1]), budget, decoder, updates[|updates| - 1])
  }

  function RunReference(budget: nat, decoder: Decoder, updates: seq<Update>): Reference {
    if updates == [] then Reference(map[], map[], 0)
    else
      var before := updates[..|updates| - 1];
      StepReference(RunReference(budget, decoder, before), RunCache(budget, decoder, before), decoder,
                    updates[|updates| - 1])
  }

  /**
   * Over every run the cache agrees with the plain map of last accepted data: the byte count is the sum of the
   * stored payloads, the list is in last-use order without duplicates and ends with the selection, and the cache is
   * within budget or holds one shape, the selected one.
   */
  lemma {:induction false} CacheAgreesWithMap(budget: nat, decoder: Decoder, updates: seq<Update>)
    requires budget + 2 * MAX_CACHE_BYTES <= U64_MAX
    ensures Agrees(RunCache(budget, decoder, updates), RunReference(budget, decoder, updates), decoder)
    ensures WithinBudget(RunCache(budget, decoder, updates), budget)
  {
    if updates != [] {
      var before, u := updates[..|updates| - 1], updates[|updates| - 1];
      CacheAgreesWithMap(budget, decoder, before);
      var c, r := RunCache(budget, decoder, before), RunReference(budget, decoder, before);
      if u.SelectId? {
        LookupAgrees(c, r, budget, decoder, u.id);
      } else if Accepts(decoder, u.data) {
        InsertAgrees(c, r, budget, decoder, u.data);
        TrimAgrees(Insert(c, u.data, Decoded(decoder, u.data).value), StepReference(r, c, decoder, u), budget, decoder);
      }
    }
  }

  /** A hit returns the decoded last data, a miss changes nothing, and the corrupt-entry path is never taken. */
  lemma {:induction false} LookupReturnsLast(budget: nat, decoder: Decoder, updates: seq<Update>, id: nat)
    requires budget + 2 * MAX_CACHE_BYTES <= U64_MAX
    ensures var c, r := RunCache(budget, decoder, updates), RunReference(budget, decoder, updates);
            var (after, result) := Lookup(c, decoder, id);
            if id in c.shapes then
              && result.Selected? && after.selected == Some(result.shape) && id in r.last
              && var d := r.last[id];
                 && result.shape.id == id && result.shape.hotX == d.hotX && result.shape.hotY == d.hotY
                 && result.shape.width == d.width > 0 && result.shape.height == d.height > 0
                 && decoder(d.colors, d.width * d.height * 4) == Some(result.shape.rgba)
            else
              after == c && result == CacheMiss(id, MissReason(c, id)) && (id in c.evicted ==> id in r.last)
    ensures Lookup(RunCache(budget, decoder, updates), decoder, id).1.CacheMiss? ==>
              Lookup(RunCache(budget, decoder, updates), decoder, id).1.reason != CorruptCachedShape
  {
    CacheAgreesWithMap(budget, decoder, updates);
  }

  /** Exactly which data is accepted: within 384 pixels a side, the hot spot inside, 1 to 2^25 bytes that decode. */
  lemma {:induction false} AcceptedExactly(decoder: Decoder, d: Data)
    ensures Accepts(decoder, d) <==>
            && 1 <= d.width <= 384 && 1 <= d.height <= 384 && 0 <= d.hotX < d.width && 0 <= d.hotY < d.height
            && 1 <= |d.colors| <= 33554432 && decoder(d.colors, d.width * d.height * 4).Some?
  {
  }

  /** Over every run the shape on show is that of accepted data: its hot spot lies inside it, its pixels are decoded. */
  lemma {:induction false} SelectionIsSound(budget: nat, decoder: Decoder, updates: seq<Update>)
    requires budget + 2 * MAX_CACHE_BYTES <= U64_MAX
    ensures var c, r := RunCache(budget, decoder, updates), RunReference(budget, decoder, updates);
            c.selectedId.Some? ==>
              && c.selected.Some? && c.selectedId.value in r.last
              && var shape, d := c.selected.value, r.last[c.selectedId.value];
                 && shape.id == c.selectedId.value
                 && 0 <= shape.hotX < shape.width <= 384 && 0 <= shape.hotY < shape.height <= 384
                 && shape.width == d.width && shape.height == d.height && shape.hotX == d.hotX && shape.hotY == d.hotY
                 && decoder(d.colors, shape.width * shape.height * 4) == Some(shape.rgba)
  {
    CacheAgreesWithMap(budget, decoder, updates);
  }

  /** Accepted data stays and is selected; only the oldest of the use order goes, no more than the budget asks. */
  lemma {:induction false} EvictionIsMinimal(budget: nat, decoder: Decoder, updates: seq<Update>, d: Data)
    requires budget + 2 * MAX_CACHE_BYTES <= U64_MAX && Accepts(decoder, d)
    ensures var full := Insert(RunCache(budget, decoder, updates), d, Decoded(decoder, d).value);
            var after := RunCache(budget, decoder, updates + [PutData(d)]);
            && after == Trim(full, budget)
            && Agrees(full, RunReference(budget, decoder, updates + [PutData(d)]), decoder)
            && d.id in after.shapes && after.shapes[d.id] == d && after.selectedId == Some(d.id)
            && exists k: nat :: Trimmed(full, after, budget, k)
  {
    var grown := updates + [PutData(d)];
    assert grown[..|grown| - 1] == updates;
    CacheAgreesWithMap(budget, decoder, updates);
    var c, r := RunCache(budget, decoder, updates), RunReference(budget, decoder, grown);
    var full, after := Insert(c, d, Decoded(decoder, d).value), RunCache(budget, decoder, grown);
    InsertAgrees(c, RunReference(budget, decoder, updates), budget, decoder, d);
    TrimAgrees(full, r, budget, decoder);
    assert after.order[|after.order| - 1] in after.order;
  }

  /** Whatever accepted data displaces was used before everything that stays. */
  lemma {:induction false} EvictionIsLru(budget: nat, decoder: Decoder, updates: seq<Update>, d: Data,
                                         gone: nat, kept: nat)
    requires budget + 2 * MAX_CACHE_BYTES <= U64_MAX && Accepts(decoder, d)
    requires gone in RunCache(budget, decoder, updates).shapes
    requires gone !in RunCache(budget, decoder, updates + [PutData(d)]).shapes
    requires kept in RunCache(budget, decoder, updates + [PutData(d)]).shapes
    ensures var r := RunReference(budget, decoder, updates + [PutData(d)]);
            gone in r.usedAt && kept in r.usedAt && r.usedAt[gone] < r.usedAt[kept]
  {
    EvictionIsMinimal(budget, decoder, updates, d);
    CacheAgreesWithMap(budget, decoder, updates + [PutData(d)]);
    var full := Insert(RunCache(budget, decoder, updates), d, Decoded(decoder, d).value);
    var after := RunCache(budget, decoder, updates + [PutData(d)]);
    var r := RunReference(budget, decoder, updates + [PutData(d)]);
    var k: nat :| Trimmed(full, after, budget, k);
    TrimmedIsOldest(full.order, r.usedAt, k, gone, kept);
  }

  lemma {:induction false} TrimmedIsOldest(order: seq<nat>, rank: map<nat, nat>, k: nat, gone: nat, kept: nat)
    requires Ranked(order, rank) && k <= |order|
    requires gone in order && gone !in order[k..] && kept in order[k..]
    ensures gone in rank && kept in rank && rank[gone] < rank[kept]
  {
    forall j | k <= j < |order| ensures order[j] in order[k..] {
      assert order[k..][j - k] == order[j];
    }
    var i :| 0 <= i < |order| && order[i] == gone;
    var j :| 0 <= j < |order[k..]| && order[k..][j] == kept;
    assert order[k + j] == kept;
  }
}
