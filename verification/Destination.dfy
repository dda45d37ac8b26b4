/** The destination as a map from business key to fields. One request is an idempotent PATCH:
    it merges the payload into the record its URL addresses, creating the record if need be. */
module Destination {
  import opened Frames
  import ODataKey

  datatype Item = Item(key: string, payload: Fields)

  type Store = map<string, Fields>

  function Held(d: Store, key: string): Fields {
    if key in d then d[key] else map[]
  }

  function Upsert(d: Store, key: string, payload: Fields): Store {
    d[key := Held(d, key) + payload]
  }

  /** What the server does with the request for `item`: whatever record the URL resolves to. */
  function Send(ep: ODataKey.Endpoint, d: Store, item: Item): Store {
    match ODataKey.Resolve(ep, ODataKey.EntityUrl(ep, item.key))
    case Some(key) => Upsert(d, key, item.payload)
    case None => d
  }

  lemma SendIsUpsert(ep: ODataKey.Endpoint, d: Store, item: Item)
    requires ODataKey.PlainNames(ep)
    ensures Send(ep, d, item) == Upsert(d, item.key, item.payload)
  {
    ODataKey.KeyRoundTrip(ep, item.key);
  }

  /** A single clean pass over the items, in order. */
  function ApplyAll(d: Store, items: seq<Item>): Store {
    if items == [] then d
    else
      var last := items[|items| - 1];
      Upsert(ApplyAll(d, items[..|items| - 1]), last.key, last.payload)
  }

  predicate DistinctKeys(items: seq<Item>) {
    forall i, j | 0 <= i < j < |items| :: items[i].key != items[j].key
  }

  // ---- A batch laid over a store, with no order in it ----

  predicate OnePerKey(batch: set<Item>) {
    forall a, b | a in batch && b in batch :: a.key == b.key ==> a == b
  }

  function Members(items: seq<Item>): set<Item> {
    set it | it in items
  }

  function KeysOf(batch: set<Item>): set<string> {
    set it | it in batch :: it.key
  }

  ghost function PayloadFor(batch: set<Item>, key: string): Fields {
    if it :| it in batch && it.key == key then it.payload else map[]
  }

  ghost function Overlay(d: Store, batch: set<Item>): Store {
    map key | key in d.Keys + KeysOf(batch) :: Held(d, key) + PayloadFor(batch, key)
  }

  function ItemsAt(items: seq<Item>, rows: set<nat>): set<Item> {
    set i | i in rows && i < |items| :: items[i]
  }

  /** `after` is `before` with part of a batch laid over it: every record is as it was or holds
      its new fields, and no key outside the batch changes. */
  ghost predicate PartOf(items: seq<Item>, before: Store, after: Store) {
    exists part: set<Item> :: part <= Members(items) && after == Overlay(before, part)
  }

  lemma PayloadIs(batch: set<Item>, it: Item)
    requires OnePerKey(batch) && it in batch
    ensures PayloadFor(batch, it.key) == it.payload
  {
  }

  lemma PayloadOfUnion(a: set<Item>, b: set<Item>, key: string)
    requires OnePerKey(a + b)
    ensures PayloadFor(a + b, key) == PayloadFor(a, key) + PayloadFor(b, key)
  {
    if it :| it in a && it.key == key {
      PayloadIs(a, it);
      PayloadIs(a + b, it);
      if key in KeysOf(b) {
        PayloadIs(b, it);
      }
    } else if it :| it in b && it.key == key {
      PayloadIs(b, it);
      PayloadIs(a + b, it);
    }
  }

  lemma HeldInOverlay(d: Store, batch: set<Item>, key: string)
    ensures Held(Overlay(d, batch), key) == Held(d, key) + PayloadFor(batch, key)
  {
    if key !in Overlay(d, batch) {
      assert PayloadFor(batch, key) == map[];
    }
  }

  lemma KeyNotLaid(d: Store, batch: set<Item>, key: string)
    requires forall it | it in batch :: it.key != key
    ensures (key in Overlay(d, batch) <==> key in d) && Held(Overlay(d, batch), key) == Held(d, key)
  {
    assert key !in KeysOf(batch);
    assert PayloadFor(batch, key) == map[];
    HeldInOverlay(d, batch, key);
  }

  lemma HeldTwice(d: Store, a: set<Item>, b: set<Item>, key: string)
    requires OnePerKey(a + b)
    ensures Held(Overlay(d, a), key) + PayloadFor(b, key) == Held(d, key) + PayloadFor(a + b, key)
  {
    HeldInOverlay(d, a, key);
    PayloadOfUnion(a, b, key);
    var x, y, z := Held(d, key), PayloadFor(a, key), PayloadFor(b, key);
    assert (x + y) + z == x + (y + z);
  }

  lemma KeysOfUnion(a: set<Item>, b: set<Item>)
    ensures KeysOf(a + b) == KeysOf(a) + KeysOf(b)
  {
  }

  /** Laying batches over one after the other is laying their union over. */
  lemma OverlayTwice(d: Store, a: set<Item>, b: set<Item>)
    requires OnePerKey(a + b)
    ensures Overlay(Overlay(d, a), b) == Overlay(d, a + b)
  {
    var once, both := Overlay(d, a), Overlay(d, a + b);
    KeysOfUnion(a, b);
    assert Overlay(once, b).Keys == both.Keys;
    forall key | key in both
      ensures Overlay(once, b)[key] == both[key]
    {
      HeldTwice(d, a, b, key);
    }
  }

  lemma OverlayNothing(d: Store)
    ensures Overlay(d, {}) == d
  {
    forall key | key in d
      ensures Held(d, key) + PayloadFor({}, key) == d[key]
    {
    }
  }

  lemma UpsertIsOverlay(d: Store, it: Item)
    ensures Upsert(d, it.key, it.payload) == Overlay(d, {it})
  {
    PayloadIs({it}, it);
    assert KeysOf({it}) == {it.key};
    forall key | key in d && key != it.key
      ensures Held(d, key) + PayloadFor({it}, key) == d[key]
    {
    }
  }

  /** A request that lands extends the batch that has landed, however often it lands. */
  lemma UpsertExtends(d: Store, batch: set<Item>, it: Item)
    requires OnePerKey(batch + {it})
    ensures Upsert(Overlay(d, batch), it.key, it.payload) == Overlay(d, batch + {it})
  {
    UpsertIsOverlay(Overlay(d, batch), it);
    OverlayTwice(d, batch, {it});
  }

  lemma DistinctMeansOnePerKey(items: seq<Item>, rows: set<nat>)
    requires DistinctKeys(items)
    ensures OnePerKey(ItemsAt(items, rows))
    ensures OnePerKey(Members(items))
  {
    forall a, b | a in items && b in items && a.key == b.key
      ensures a == b
    {
      var i :| 0 <= i < |items| && items[i] == a;
      var j :| 0 <= j < |items| && items[j] == b;
      assert i == j;
    }
  }

  /** With distinct keys a clean pass has no order in it. */
  lemma {:induction false} ApplyAllIsOverlay(d: Store, items: seq<Item>)
    requires DistinctKeys(items)
    ensures ApplyAll(d, items) == Overlay(d, Members(items))
  {
    if items == [] {
      OverlayNothing(d);
      assert Members(items) == {};
    } else {
      var init, last := items[..|items| - 1], items[|items| - 1];
      ApplyAllIsOverlay(d, init);
      DistinctMeansOnePerKey(items, {});
      assert items == init + [last];
      assert Members(items) == Members(init) + {last};
      UpsertExtends(d, Members(init), last);
    }
  }

  /** The same items in another order leave the same store. */
  lemma {:induction false} OrderDoesNotMatter(d: Store, a: seq<Item>, b: seq<Item>)
    requires DistinctKeys(a) && DistinctKeys(b)
    requires Members(a) == Members(b)
    ensures ApplyAll(d, a) == ApplyAll(d, b)
  {
    ApplyAllIsOverlay(d, a);
    ApplyAllIsOverlay(d, b);
  }

  /** A clean pass over a store that part of the batch has reached leaves what it would have left
      without that part: nothing has to be resumed. */
  lemma {:induction false} CleanPassAbsorbsPart(items: seq<Item>, before: Store, partly: Store)
    requires DistinctKeys(items) && PartOf(items, before, partly)
    ensures ApplyAll(partly, items) == ApplyAll(before, items)
  {
    var part :| part <= Members(items) && partly == Overlay(before, part);
    DistinctMeansOnePerKey(items, {});
    assert part + Members(items) == Members(items);
    OverlayTwice(before, part, Members(items));
    ApplyAllIsOverlay(partly, items);
    ApplyAllIsOverlay(before, items);
  }

  /** The item's fields are under its key, over what was held there before. */
  ghost predicate HoldsItem(d: Store, after: Store, it: Item) {
    && it.key in after
    && (forall f | f in it.payload :: f in after[it.key] && after[it.key][f] == it.payload[f])
    && (forall f | f !in it.payload ::
          (f in after[it.key] <==> f in Held(d, it.key))
          && (f in after[it.key] ==> after[it.key][f] == Held(d, it.key)[f]))
  }

  /** What a clean pass leaves: each item's fields under its key, everything else untouched. */
  ghost predicate Holds(d: Store, after: Store, items: seq<Item>) {
    && after.Keys == d.Keys + KeysOf(Members(items))
    && (forall it | it in items :: HoldsItem(d, after, it))
    && (forall key | key in d && key !in KeysOf(Members(items)) :: after[key] == d[key])
  }

  lemma {:induction false} ApplyAllHolds(d: Store, items: seq<Item>)
    requires DistinctKeys(items)
    ensures Holds(d, ApplyAll(d, items), items)
  {
    ApplyAllIsOverlay(d, items);
    DistinctMeansOnePerKey(items, {});
    var batch := Members(items);
    forall it | it in items
      ensures HoldsItem(d, Overlay(d, batch), it)
    {
      OverlayHoldsItem(d, batch, it);
    }
  }

  lemma OverlayHoldsItem(d: Store, batch: set<Item>, it: Item)
    requires OnePerKey(batch) && it in batch
    ensures HoldsItem(d, Overlay(d, batch), it)
  {
    assert it.key in KeysOf(batch);
    PayloadIs(batch, it);
    assert Overlay(d, batch)[it.key] == Held(d, it.key) + it.payload;
  }
}
