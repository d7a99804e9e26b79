/**
 * The reconciliation engine (`diff_and_store`, monitor_throne.py:448-496):
 * the `items` table keyed by (wishlist id, item id) and the append-only
 * `events` log are the fields of a `Store`; one call compares a freshly
 * extracted list against the snapshot of the wishlist read before the loop,
 * upserts every record, and logs one event per addition, price change and
 * removal. The timestamp is a parameter.
 */
module Reconcile {
  import opened Wrappers
  import opened Items

  /** A row of the `items` table is addressed by (wishlist_id, item_id). */
  type Key = (string, string)

  datatype Row = Row(name: string, priceCents: int, currency: string, productUrl: string,
                     imageUrl: string, available: int, firstSeen: string, lastSeen: string)

  datatype EventKind = Added | Removed | PriceChange

  /** A row of the `events` table; `None` stands for SQL NULL. */
  datatype Event = Event(ts: string, wishlistId: string, kind: EventKind, itemId: string,
                         name: string, fromPrice: Option<int>, toPrice: Option<int>)

  /** What the snapshot `prev` keeps of a stored row. */
  datatype Prior = Prior(name: string, priceCents: int)

  /** An entry of `price_changes`: the new record, the stored price, the new price. */
  datatype PriceChangeEntry = PriceChangeEntry(item: Item, before: int, after: int)

  /** An entry of `removed`. */
  datatype Removal = Removal(itemId: string, name: string)

  /** `SELECT item_id, name, price_cents FROM items WHERE wishlist_id=?` as a dict by item id. */
  function Snapshot(table: map<Key, Row>, wid: string): (prev: map<string, Prior>)
    ensures forall id :: id in prev <==> (wid, id) in table
    ensures forall id :: id in prev ==> prev[id] == Prior(table[(wid, id)].name, table[(wid, id)].priceCents)
  {
    map k | k in table && k.0 == wid :: k.1 := Prior(table[k].name, table[k].priceCents)
  }

  /** The row the upsert leaves for one record: `first_seen` survives a conflict, everything else is replaced. */
  function UpsertRow(table: map<Key, Row>, wid: string, it: Item, ts: string): map<Key, Row>
  {
    var key := (wid, it.itemId);
    table[key := RowOf(it, if key in table then table[key].firstSeen else ts, ts)]
  }

  /**
   * One upsert adds at most the record's key, keeps `first_seen` of an
   * existing row (else `ts`), sets `last_seen = ts` and the record's columns,
   * and leaves every other row alone.
   */
  lemma UpsertRowEffect(table: map<Key, Row>, wid: string, it: Item, ts: string)
    ensures var after, key := UpsertRow(table, wid, it, ts), (wid, it.itemId);
            && after.Keys == table.Keys + {key}
            && after[key].firstSeen == (if key in table then table[key].firstSeen else ts)
            && after[key].lastSeen == ts
            && after[key].name == it.name && after[key].priceCents == it.priceCents && after[key].currency == it.currency
            && after[key].productUrl == it.productUrl && after[key].imageUrl == it.imageUrl
            && after[key].available == it.available
            && forall k :: k in table && k != key ==> after[k] == table[k]
  {
  }

  /** The column values the upsert writes for a record. */
  function RowOf(it: Item, firstSeen: string, lastSeen: string): Row
  {
    Row(it.name, it.priceCents, it.currency, it.productUrl, it.imageUrl, it.available, firstSeen, lastSeen)
  }

  /** The table after upserting every record in order. */
  function UpsertAll(table: map<Key, Row>, wid: string, xs: seq<Item>, ts: string): map<Key, Row>
  {
    if xs == [] then table
    else UpsertRow(UpsertAll(table, wid, xs[..|xs| - 1], ts), wid, xs[|xs| - 1], ts)
  }

  /** The price-change test against the snapshot: both known (non-negative) and different. */
  predicate PriceMoved(before: int, after: int)
  {
    before != after && before >= 0 && after >= 0
  }

  /** The `added` event of a record: no from-price, its own price as the to-price. */
  function AddedEvent(wid: string, it: Item, ts: string): Event
  {
    Event(ts, wid, Added, it.itemId, it.name, None, Some(it.priceCents))
  }

  /** The `price_change` event of an entry: the stored price, then the new one. */
  function ChangeEvent(wid: string, pc: PriceChangeEntry, ts: string): Event
  {
    Event(ts, wid, PriceChange, pc.item.itemId, pc.item.name, Some(pc.before), Some(pc.after))
  }

  /** The events one record causes, classified against the fixed snapshot. */
  function ItemEvents(prev: map<string, Prior>, wid: string, it: Item, ts: string): seq<Event>
  {
    if it.itemId !in prev then
      [AddedEvent(wid, it, ts)]
    else if PriceMoved(prev[it.itemId].priceCents, it.priceCents) then
      [ChangeEvent(wid, PriceChangeEntry(it, prev[it.itemId].priceCents, it.priceCents), ts)]
    else []
  }

  /**
   * A record causes at most one event: `added` exactly when the snapshot
   * lacks its id, `price_change` exactly when its known price moved; either
   * way the event carries the record's id and its price as the to-price.
   */
  lemma ItemEventsKind(prev: map<string, Prior>, wid: string, it: Item, ts: string)
    ensures var evs := ItemEvents(prev, wid, it, ts);
            && |evs| <= 1
            && ((evs != [] && evs[0].kind == Added) <==> it.itemId !in prev)
            && ((evs != [] && evs[0].kind == PriceChange) <==>
                 it.itemId in prev && PriceMoved(prev[it.itemId].priceCents, it.priceCents))
            && (evs != [] ==> evs[0].itemId == it.itemId && evs[0].toPrice == Some(it.priceCents))
  {
  }

  /** The events of the item loop, in record order. */
  function LoopEvents(prev: map<string, Prior>, wid: string, xs: seq<Item>, ts: string): seq<Event>
  {
    if xs == [] then []
    else LoopEvents(prev, wid, xs[..|xs| - 1], ts) + ItemEvents(prev, wid, xs[|xs| - 1], ts)
  }

  /** What one record contributes to `added`. */
  function AddedOf(prev: map<string, Prior>, it: Item): seq<Item>
  {
    if it.itemId !in prev then [it] else []
  }

  /** What one record contributes to `price_changes`. */
  function ChangeOf(prev: map<string, Prior>, it: Item): seq<PriceChangeEntry>
  {
    if it.itemId in prev && PriceMoved(prev[it.itemId].priceCents, it.priceCents)
    then [PriceChangeEntry(it, prev[it.itemId].priceCents, it.priceCents)] else []
  }

  /** The `added` list: every record (each occurrence) whose id the snapshot lacks. */
  function AddedItems(prev: map<string, Prior>, xs: seq<Item>): seq<Item>
  {
    if xs == [] then [] else AddedItems(prev, xs[..|xs| - 1]) + AddedOf(prev, xs[|xs| - 1])
  }

  /** The `price_changes` list. */
  function PriceChanges(prev: map<string, Prior>, xs: seq<Item>): seq<PriceChangeEntry>
  {
    if xs == [] then [] else PriceChanges(prev, xs[..|xs| - 1]) + ChangeOf(prev, xs[|xs| - 1])
  }

  /** `set(prev.keys()) - current_ids`. */
  function RemovedIds(prev: map<string, Prior>, xs: seq<Item>): set<string>
  {
    prev.Keys - KeySet(xs, ItemKey)
  }

  /** A `removed` list in some order of the set: each removed id once, with the snapshot's name. */
  predicate RemovalsOf(prev: map<string, Prior>, xs: seq<Item>, removed: seq<Removal>)
  {
    RemovalsCover(prev, removed, RemovedIds(prev, xs))
  }

  /** `removed` lists the ids of `ids`, each once, with the snapshot's name. */
  predicate RemovalsCover(prev: map<string, Prior>, removed: seq<Removal>, ids: set<string>)
  {
    && DistinctKeys(removed, RemovalId)
    && KeySet(removed, RemovalId) == ids
    && forall i :: 0 <= i < |removed| ==> removed[i].itemId in prev && removed[i].name == prev[removed[i].itemId].name
  }

  lemma RemovalEventsSnoc(wid: string, removed: seq<Removal>, r: Removal, ts: string)
    ensures RemovalEvents(wid, removed + [r], ts) == RemovalEvents(wid, removed, ts) + [Event(ts, wid, Removed, r.itemId, r.name, None, None)]
  {
    assert (removed + [r])[..|removed|] == removed;
  }

  function RemovalId(r: Removal): string
  {
    r.itemId
  }

  /** The `removed` events, one per entry of `removed`, in the same order. */
  function RemovalEvents(wid: string, removed: seq<Removal>, ts: string): (evs: seq<Event>)
    ensures |evs| == |removed|
    ensures forall i :: 0 <= i < |removed| ==>
              evs[i] == Event(ts, wid, Removed, removed[i].itemId, removed[i].name, None, None)
  {
    if removed == [] then []
    else
      var r := removed[|removed| - 1];
      RemovalEvents(wid, removed[..|removed| - 1], ts) + [Event(ts, wid, Removed, r.itemId, r.name, None, None)]
  }

  /**
   * Each occurrence of a record whose id the snapshot lacks is reported
   * added (an id listed twice is reported twice); no other record is.
   */
  lemma {:induction false} AddedItemsExactly(prev: map<string, Prior>, xs: seq<Item>)
    ensures forall it :: multiset(AddedItems(prev, xs))[it] == if it.itemId in prev then 0 else multiset(xs)[it]
    ensures forall it :: it in AddedItems(prev, xs) <==> it in xs && it.itemId !in prev
  {
    if xs != [] {
      var p, c := xs[..|xs| - 1], xs[|xs| - 1];
      AddedItemsExactly(prev, p);
      assert xs == p + [c];
      assert multiset(xs) == multiset(p) + multiset([c]);
    }
  }

  /**
   * A price change is reported exactly for a record whose id is in the
   * snapshot with a different price, both prices known (not the -1 sentinel).
   */
  lemma {:induction false} PriceChangesExactly(prev: map<string, Prior>, xs: seq<Item>)
    ensures forall pc :: pc in PriceChanges(prev, xs) <==>
              pc.item in xs && pc.item.itemId in prev &&
              pc.before == prev[pc.item.itemId].priceCents && pc.after == pc.item.priceCents &&
              PriceMoved(pc.before, pc.after)
  {
    if xs != [] {
      var p, c := xs[..|xs| - 1], xs[|xs| - 1];
      PriceChangesExactly(prev, p);
      assert xs == p + [c];
    }
  }

  /** The item loop logs one event per addition and one per price change, and nothing else. */
  lemma {:induction false} LoopEventsCount(prev: map<string, Prior>, wid: string, xs: seq<Item>, ts: string)
    ensures |LoopEvents(prev, wid, xs, ts)| == |AddedItems(prev, xs)| + |PriceChanges(prev, xs)|
    ensures forall e :: e in LoopEvents(prev, wid, xs, ts) ==>
              e.ts == ts && e.wishlistId == wid &&
              (e.kind == Added ==> e.itemId !in prev && e.fromPrice.None? && e.toPrice.Some?) &&
              (e.kind == PriceChange ==> e.itemId in prev && e.fromPrice == Some(prev[e.itemId].priceCents)) &&
              e.kind != Removed
  {
    if xs != [] {
      LoopEventsCount(prev, wid, xs[..|xs| - 1], ts);
    }
  }

  /** The events of `evs` of one kind, in log order. */
  function OfKind(evs: seq<Event>, kind: EventKind): seq<Event>
  {
    if evs == [] then []
    else OfKind(evs[..|evs| - 1], kind) + (if evs[|evs| - 1].kind == kind then [evs[|evs| - 1]] else [])
  }

  lemma {:induction false} OfKindConcat(a: seq<Event>, b: seq<Event>, kind: EventKind)
    ensures OfKind(a + b, kind) == OfKind(a, kind) + OfKind(b, kind)
    decreases |b|
  {
    if b == [] {
      assert a + b == a;
    } else {
      var b0, z := b[..|b| - 1], b[|b| - 1];
      assert (a + b)[..|a + b| - 1] == a + b0 && (a + b)[|a + b| - 1] == z;
      OfKindConcat(a, b0, kind);
    }
  }

  function AddedEvents(wid: string, added: seq<Item>, ts: string): seq<Event>
  {
    if added == [] then [] else AddedEvents(wid, added[..|added| - 1], ts) + [AddedEvent(wid, added[|added| - 1], ts)]
  }

  function ChangeEvents(wid: string, changes: seq<PriceChangeEntry>, ts: string): seq<Event>
  {
    if changes == [] then []
    else ChangeEvents(wid, changes[..|changes| - 1], ts) + [ChangeEvent(wid, changes[|changes| - 1], ts)]
  }

  lemma AddedEventsSnoc(wid: string, added: seq<Item>, more: seq<Item>, ts: string)
    requires |more| <= 1
    ensures AddedEvents(wid, added + more, ts) == AddedEvents(wid, added, ts) + AddedEvents(wid, more, ts)
  {
    if more == [] {
      assert added + more == added;
    } else {
      assert (added + more)[..|added + more| - 1] == added;
    }
  }

  lemma ChangeEventsSnoc(wid: string, changes: seq<PriceChangeEntry>, more: seq<PriceChangeEntry>, ts: string)
    requires |more| <= 1
    ensures ChangeEvents(wid, changes + more, ts) == ChangeEvents(wid, changes, ts) + ChangeEvents(wid, more, ts)
  {
    if more == [] {
      assert changes + more == changes;
    } else {
      assert (changes + more)[..|changes + more| - 1] == changes;
    }
  }

  /** The removal loop logs only `removed` events. */
  lemma {:induction false} RemovalEventsOfKind(wid: string, removed: seq<Removal>, ts: string, kind: EventKind)
    ensures OfKind(RemovalEvents(wid, removed, ts), kind) == if kind == Removed then RemovalEvents(wid, removed, ts) else []
  {
    if removed != [] {
      var evs := RemovalEvents(wid, removed, ts);
      RemovalEventsOfKind(wid, removed[..|removed| - 1], ts, kind);
      assert evs[..|evs| - 1] == RemovalEvents(wid, removed[..|removed| - 1], ts);
    }
  }

  /** The events of one call, kind by kind: the item loop's additions and price changes, then the removals. */
  lemma CallEventsByKind(prev: map<string, Prior>, wid: string, xs: seq<Item>, removed: seq<Removal>, ts: string)
    ensures var evs := LoopEvents(prev, wid, xs, ts) + RemovalEvents(wid, removed, ts);
            && OfKind(evs, Added) == AddedEvents(wid, AddedItems(prev, xs), ts)
            && OfKind(evs, PriceChange) == ChangeEvents(wid, PriceChanges(prev, xs), ts)
            && OfKind(evs, Removed) == RemovalEvents(wid, removed, ts)
  {
    var loop, rem := LoopEvents(prev, wid, xs, ts), RemovalEvents(wid, removed, ts);
    LoopEventsByKind(prev, wid, xs, ts);
    OfKindConcat(loop, rem, Added);
    OfKindConcat(loop, rem, PriceChange);
    OfKindConcat(loop, rem, Removed);
    RemovalEventsOfKind(wid, removed, ts, Added);
    RemovalEventsOfKind(wid, removed, ts, PriceChange);
    RemovalEventsOfKind(wid, removed, ts, Removed);
    assert [] + rem == rem;
  }

  /** One record's events, read kind by kind. */
  lemma ItemEventsByKind(prev: map<string, Prior>, wid: string, it: Item, ts: string)
    ensures OfKind(ItemEvents(prev, wid, it, ts), Added) == AddedEvents(wid, AddedOf(prev, it), ts)
    ensures OfKind(ItemEvents(prev, wid, it, ts), PriceChange) == ChangeEvents(wid, ChangeOf(prev, it), ts)
    ensures OfKind(ItemEvents(prev, wid, it, ts), Removed) == []
  {
    var ev := ItemEvents(prev, wid, it, ts);
    if ev != [] {
      assert ev[..0] == [];
    }
    var a, c := AddedOf(prev, it), ChangeOf(prev, it);
    if a != [] {
      assert a[..0] == [];
    }
    if c != [] {
      assert c[..0] == [];
    }
  }

  /**
   * The item loop's log, read kind by kind: its `added` events are one per
   * entry of `added`, in order, each with a null from-price and the record's
   * price as the to-price; its `price_change` events are one per entry of
   * `price_changes`, in order, with the stored and the new price; it logs no
   * `removed` event.
   */
  lemma {:induction false} LoopEventsByKind(prev: map<string, Prior>, wid: string, xs: seq<Item>, ts: string)
    ensures OfKind(LoopEvents(prev, wid, xs, ts), Added) == AddedEvents(wid, AddedItems(prev, xs), ts)
    ensures OfKind(LoopEvents(prev, wid, xs, ts), PriceChange) == ChangeEvents(wid, PriceChanges(prev, xs), ts)
    ensures OfKind(LoopEvents(prev, wid, xs, ts), Removed) == []
  {
    if xs != [] {
      var p, c := xs[..|xs| - 1], xs[|xs| - 1];
      LoopEventsByKind(prev, wid, p, ts);
      var ev := ItemEvents(prev, wid, c, ts);
      ItemEventsByKind(prev, wid, c, ts);
      OfKindConcat(LoopEvents(prev, wid, p, ts), ev, Added);
      OfKindConcat(LoopEvents(prev, wid, p, ts), ev, PriceChange);
      OfKindConcat(LoopEvents(prev, wid, p, ts), ev, Removed);
      AddedEventsSnoc(wid, AddedItems(prev, p), AddedOf(prev, c), ts);
      ChangeEventsSnoc(wid, PriceChanges(prev, p), ChangeOf(prev, c), ts);
    } else {
      assert OfKind([], Added) == [];
    }
  }

  /**
   * The table after the upsert loop: each listed id holds the columns of its
   * last record, `last_seen = ts`, and `first_seen` of the old row or `ts`
   * for a new one; every other row is untouched and no row is deleted.
   */
  lemma UpsertAllRows(table: map<Key, Row>, wid: string, xs: seq<Item>, ts: string)
    ensures var after := UpsertAll(table, wid, xs, ts);
            && (forall id :: id in KeySet(xs, ItemKey) ==>
                  (wid, id) in after &&
                  after[(wid, id)] == RowOf(xs[LastIndex(xs, ItemKey, id)],
                                            if (wid, id) in table then table[(wid, id)].firstSeen else ts, ts))
            && (forall k :: k in table && (k.0 != wid || k.1 !in KeySet(xs, ItemKey)) ==> k in after && after[k] == table[k])
            && (forall k :: k in after ==> k in table || (k.0 == wid && k.1 in KeySet(xs, ItemKey)))
  {
    UpsertAllListed(table, wid, xs, ts);
    UpsertAllKeeps(table, wid, xs, ts);
    UpsertAllNoExtra(table, wid, xs, ts);
  }

  /** Rows of other wishlists and of ids the list does not mention are untouched. */
  lemma {:induction false} UpsertAllKeeps(table: map<Key, Row>, wid: string, xs: seq<Item>, ts: string)
    ensures forall k :: k in table && (k.0 != wid || k.1 !in KeySet(xs, ItemKey)) ==>
              k in UpsertAll(table, wid, xs, ts) && UpsertAll(table, wid, xs, ts)[k] == table[k]
  {
    if xs != [] {
      var p, c := xs[..|xs| - 1], xs[|xs| - 1];
      UpsertAllKeeps(table, wid, p, ts);
      assert xs == p + [c];
      KeySetSnoc(p, c, ItemKey);
    }
  }

  /** The upsert loop adds rows only for listed ids of this wishlist. */
  lemma {:induction false} UpsertAllNoExtra(table: map<Key, Row>, wid: string, xs: seq<Item>, ts: string)
    ensures forall k :: k in UpsertAll(table, wid, xs, ts) ==> k in table || (k.0 == wid && k.1 in KeySet(xs, ItemKey))
  {
    if xs != [] {
      var p, c := xs[..|xs| - 1], xs[|xs| - 1];
      UpsertAllNoExtra(table, wid, p, ts);
      assert xs == p + [c];
      KeySetSnoc(p, c, ItemKey);
    }
  }

  /** Each listed id's row holds its last record, `last_seen = ts`, and the old `first_seen` or `ts`. */
  lemma {:induction false} UpsertAllListed(table: map<Key, Row>, wid: string, xs: seq<Item>, ts: string)
    ensures forall id :: id in KeySet(xs, ItemKey) ==>
              (wid, id) in UpsertAll(table, wid, xs, ts) &&
              UpsertAll(table, wid, xs, ts)[(wid, id)] ==
                RowOf(xs[LastIndex(xs, ItemKey, id)], if (wid, id) in table then table[(wid, id)].firstSeen else ts, ts)
  {
    if xs != [] {
      var p, c := xs[..|xs| - 1], xs[|xs| - 1];
      UpsertAllListed(table, wid, p, ts);
      UpsertAllKeeps(table, wid, p, ts);
      UpsertAllNoExtra(table, wid, p, ts);
      assert xs == p + [c];
      KeySetSnoc(p, c, ItemKey);
      forall id | id in KeySet(xs, ItemKey) && id != c.itemId
        ensures LastIndex(xs, ItemKey, id) == LastIndex(p, ItemKey, id)
      {
        LastIndexSnoc(p, c, ItemKey, id);
      }
    }
  }

  /** The wishlist's snapshot after the upsert: the old ids plus the listed ones, each listed id at its last price. */
  lemma SnapshotAfterUpsert(table: map<Key, Row>, wid: string, xs: seq<Item>, ts: string)
    ensures var after := Snapshot(UpsertAll(table, wid, xs, ts), wid);
            && after.Keys == Snapshot(table, wid).Keys + KeySet(xs, ItemKey)
            && forall id :: id in KeySet(xs, ItemKey) ==> after[id].priceCents == xs[LastIndex(xs, ItemKey, id)].priceCents
  {
    UpsertAllRows(table, wid, xs, ts);
  }

  /** Another wishlist's rows are untouched. */
  lemma OtherWishlistUnchanged(table: map<Key, Row>, wid: string, other: string, xs: seq<Item>, ts: string)
    requires other != wid
    ensures Snapshot(UpsertAll(table, wid, xs, ts), other) == Snapshot(table, other)
  {
    UpsertAllRows(table, wid, xs, ts);
    var after := UpsertAll(table, wid, xs, ts);
    assert Snapshot(after, other).Keys == Snapshot(table, other).Keys;
  }

  /**
   * Rows are never deleted, so an id absent from two successive lists is
   * reported removed by both calls, and an id that comes back is not
   * reported added.
   */
  lemma RemovalIsSticky(table: map<Key, Row>, wid: string, xs: seq<Item>, ys: seq<Item>, ts: string, id: string)
    requires id in RemovedIds(Snapshot(table, wid), xs)
    ensures id !in KeySet(ys, ItemKey) ==> id in RemovedIds(Snapshot(UpsertAll(table, wid, xs, ts), wid), ys)
    ensures forall it :: it in ys && it.itemId == id ==> it !in AddedItems(Snapshot(UpsertAll(table, wid, xs, ts), wid), ys)
  {
    SnapshotAfterUpsert(table, wid, xs, ts);
    AddedItemsExactly(Snapshot(UpsertAll(table, wid, xs, ts), wid), ys);
  }

  /** When every listed id is already in the snapshot, nothing is reported added. */
  lemma {:induction false} NoneAdded(prev: map<string, Prior>, xs: seq<Item>)
    requires forall i :: 0 <= i < |xs| ==> xs[i].itemId in prev
    ensures AddedItems(prev, xs) == []
  {
    if xs != [] {
      NoneAdded(prev, xs[..|xs| - 1]);
    }
  }

  /** When every listed id is in the snapshot at its listed price, no price change is reported. */
  lemma {:induction false} NoneChanged(prev: map<string, Prior>, xs: seq<Item>)
    requires forall i :: 0 <= i < |xs| ==> xs[i].itemId in prev && prev[xs[i].itemId].priceCents == xs[i].priceCents
    ensures PriceChanges(prev, xs) == []
  {
    if xs != [] {
      NoneChanged(prev, xs[..|xs| - 1]);
    }
  }

  /** Storing the same list again reports nothing added. */
  lemma StoreTwiceAddsNothing(table: map<Key, Row>, wid: string, xs: seq<Item>, ts: string)
    ensures AddedItems(Snapshot(UpsertAll(table, wid, xs, ts), wid), xs) == []
  {
    var after := Snapshot(UpsertAll(table, wid, xs, ts), wid);
    SnapshotAfterUpsert(table, wid, xs, ts);
    forall i | 0 <= i < |xs|
      ensures xs[i].itemId in after
    {
      assert xs[i] in xs;
    }
    NoneAdded(after, xs);
  }

  /** Storing the same list again, when its ids are distinct, reports no price change. */
  lemma StoreTwiceChangesNoPrice(table: map<Key, Row>, wid: string, xs: seq<Item>, ts: string)
    requires DistinctKeys(xs, ItemKey)
    ensures PriceChanges(Snapshot(UpsertAll(table, wid, xs, ts), wid), xs) == []
  {
    var after := Snapshot(UpsertAll(table, wid, xs, ts), wid);
    SnapshotAfterUpsert(table, wid, xs, ts);
    forall i | 0 <= i < |xs|
      ensures xs[i].itemId in after && after[xs[i].itemId].priceCents == xs[i].priceCents
    {
      assert xs[i] in xs;
      assert LastIndex(xs, ItemKey, xs[i].itemId) == i;
    }
    NoneChanged(after, xs);
  }

  /** The removal entries for the ids in `ids`, in that order. */
  function RemovalsFor(prev: map<string, Prior>, ids: seq<string>): (removed: seq<Removal>)
    requires forall i :: 0 <= i < |ids| ==> ids[i] in prev
    ensures |removed| == |ids|
  {
    seq(|ids|, i requires 0 <= i < |ids| => Removal(ids[i], prev[ids[i]].name))
  }

  /** One more id appends its entry. */
  lemma RemovalsForSnoc(prev: map<string, Prior>, ids: seq<string>, k: nat)
    requires k < |ids| && forall i :: 0 <= i < |ids| ==> ids[i] in prev
    ensures RemovalsFor(prev, ids[..k + 1]) == RemovalsFor(prev, ids[..k]) + [Removal(ids[k], prev[ids[k]].name)]
  {
  }

  /** Listing each id of a set once, in any order, covers the set. */
  lemma RemovalsForCover(prev: map<string, Prior>, order: seq<string>, ids: set<string>)
    requires forall i, j :: 0 <= i < j < |order| ==> order[i] != order[j]
    requires forall id :: id in order <==> id in ids
    requires ids <= prev.Keys
    ensures RemovalsCover(prev, RemovalsFor(prev, order), ids)
  {
    var removed := RemovalsFor(prev, order);
    forall id | id in ids
      ensures id in KeySet(removed, RemovalId)
    {
      var i :| 0 <= i < |order| && order[i] == id;
      assert removed[i] in removed;
    }
  }

  /** The elements of a set, each once, in an order the model leaves open (Python's set order). */
  method Enumerate(s: set<string>) returns (order: seq<string>)
    ensures forall i, j :: 0 <= i < j < |order| ==> order[i] != order[j]
    ensures forall id :: id in order <==> id in s
  {
    order := [];
    var pending := s;
    while pending != {}
      invariant pending <= s
      invariant forall i, j :: 0 <= i < j < |order| ==> order[i] != order[j]
      invariant forall id :: id in order <==> id in s - pending
      decreases |pending|
    {
      var id :| id in pending;
      forall i | 0 <= i < |order|
        ensures order[i] != id
      {
        assert order[i] in order;
      }
      order := order + [id];
      pending := pending - {id};
    }
  }

  /** How every quantity of the item loop grows by one record. */
  lemma ItemLoopStep(prev: map<string, Prior>, table: map<Key, Row>, wid: string, xs: seq<Item>, n: nat, ts: string)
    requires n < |xs|
    ensures UpsertAll(table, wid, xs[..n + 1], ts) == UpsertRow(UpsertAll(table, wid, xs[..n], ts), wid, xs[n], ts)
    ensures LoopEvents(prev, wid, xs[..n + 1], ts) == LoopEvents(prev, wid, xs[..n], ts) + ItemEvents(prev, wid, xs[n], ts)
    ensures AddedItems(prev, xs[..n + 1]) == AddedItems(prev, xs[..n]) + AddedOf(prev, xs[n])
    ensures PriceChanges(prev, xs[..n + 1]) == PriceChanges(prev, xs[..n]) + ChangeOf(prev, xs[n])
    ensures KeySet(xs[..n + 1], ItemKey) == KeySet(xs[..n], ItemKey) + {xs[n].itemId}
  {
    assert xs[..n + 1][..n] == xs[..n];
    assert xs[..n + 1] == xs[..n] + [xs[n]];
    KeySetSnoc(xs[..n], xs[n], ItemKey);
  }

  lemma AppendAssoc<T>(a: seq<T>, b: seq<T>, c: seq<T>)
    ensures (a + b) + c == a + (b + c)
  {
  }

  /** The two tables of the state database. */
  class Store {
    var items: map<Key, Row>
    var events: seq<Event>

    /** A fresh database: `ensure_db` creates both tables empty. */
    constructor ()
      ensures items == map[] && events == []
    {
      items := map[];
      events := [];
    }

    /**
     * One reconciliation of `newItems` for wishlist `wid` at time `ts`:
     * upserts every record, reports and logs additions and price changes
     * against the snapshot taken before the loop, then reports and logs
     * every snapshot id absent from `newItems` as removed.
     */
    method DiffAndStore(wid: string, newItems: seq<Item>, ts: string)
      returns (added: seq<Item>, removed: seq<Removal>, priceChanges: seq<PriceChangeEntry>)
      modifies this
      ensures added == AddedItems(Snapshot(old(items), wid), newItems)
      ensures priceChanges == PriceChanges(Snapshot(old(items), wid), newItems)
      ensures RemovalsOf(Snapshot(old(items), wid), newItems, removed)
      ensures items == UpsertAll(old(items), wid, newItems, ts)
      ensures events == old(events) + LoopEvents(Snapshot(old(items), wid), wid, newItems, ts)
                                    + RemovalEvents(wid, removed, ts)
      ensures |events| == |old(events)| + |added| + |priceChanges| + |removed|
      ensures var logged := LoopEvents(Snapshot(old(items), wid), wid, newItems, ts) + RemovalEvents(wid, removed, ts);
              && OfKind(logged, Added) == AddedEvents(wid, added, ts)
              && OfKind(logged, PriceChange) == ChangeEvents(wid, priceChanges, ts)
              && OfKind(logged, Removed) == RemovalEvents(wid, removed, ts)
    {
      var prev := Snapshot(items, wid);
      var currentIds;
      added, priceChanges, currentIds := StoreItems(prev, wid, newItems, ts);
      removed := LogRemovals(prev, wid, prev.Keys - currentIds, ts);
      LoopEventsCount(prev, wid, newItems, ts);
      CallEventsByKind(prev, wid, newItems, removed, ts);
    }

    /** The item loop: upsert each record and log it against the fixed snapshot `prev`. */
    method StoreItems(prev: map<string, Prior>, wid: string, newItems: seq<Item>, ts: string)
      returns (added: seq<Item>, priceChanges: seq<PriceChangeEntry>, currentIds: set<string>)
      modifies this
      ensures added == AddedItems(prev, newItems)
      ensures priceChanges == PriceChanges(prev, newItems)
      ensures currentIds == KeySet(newItems, ItemKey)
      ensures items == UpsertAll(old(items), wid, newItems, ts)
      ensures events == old(events) + LoopEvents(prev, wid, newItems, ts)
    {
      currentIds := {};
      added, priceChanges := [], [];
      ghost var table0, events0 := items, events;
      for n := 0 to |newItems|
        invariant items == UpsertAll(table0, wid, newItems[..n], ts)
        invariant events == events0 + LoopEvents(prev, wid, newItems[..n], ts)
        invariant added == AddedItems(prev, newItems[..n])
        invariant priceChanges == PriceChanges(prev, newItems[..n])
        invariant currentIds == KeySet(newItems[..n], ItemKey)
      {
        var it := newItems[n];
        ItemLoopStep(prev, table0, wid, newItems, n, ts);
        currentIds := currentIds + {it.itemId};
        var newlyAdded, change := StoreItem(prev, wid, it, ts);
        added := added + newlyAdded;
        priceChanges := priceChanges + change;
        AppendAssoc(events0, LoopEvents(prev, wid, newItems[..n], ts), ItemEvents(prev, wid, it, ts));
        assert items == UpsertAll(table0, wid, newItems[..n + 1], ts);
        assert added == AddedItems(prev, newItems[..n + 1]);
        assert priceChanges == PriceChanges(prev, newItems[..n + 1]);
      }
      assert newItems[..|newItems|] == newItems;
      assert events == events0 + LoopEvents(prev, wid, newItems, ts);
    }

    /** The body of the item loop for one record. */
    method StoreItem(prev: map<string, Prior>, wid: string, it: Item, ts: string)
      returns (newlyAdded: seq<Item>, change: seq<PriceChangeEntry>)
      modifies this
      ensures newlyAdded == AddedOf(prev, it) && change == ChangeOf(prev, it)
      ensures items == UpsertRow(old(items), wid, it, ts)
      ensures events == old(events) + ItemEvents(prev, wid, it, ts)
    {
      Upsert(wid, it, ts);
      newlyAdded, change := [], [];
      if it.itemId !in prev {
        newlyAdded := [it];
        Log(AddedEvent(wid, it, ts));
      } else {
        var before := prev[it.itemId].priceCents;
        var after := it.priceCents;
        if PriceMoved(before, after) {
          change := [PriceChangeEntry(it, before, after)];
          Log(ChangeEvent(wid, change[0], ts));
        }
      }
    }

    /** `INSERT ... ON CONFLICT(wishlist_id,item_id) DO UPDATE`, which leaves `first_seen` alone. */
    method Upsert(wid: string, it: Item, ts: string)
      modifies this
      ensures items == UpsertRow(old(items), wid, it, ts)
      ensures events == old(events)
    {
      var key := (wid, it.itemId);
      var firstSeen := if key in items then items[key].firstSeen else ts;
      items := items[key := RowOf(it, firstSeen, ts)];
    }

    /** `INSERT INTO events ...`: one row appended to the log. */
    method Log(ev: Event)
      modifies this
      ensures events == old(events) + [ev]
      ensures items == old(items)
    {
      events := events + [ev];
    }

    /** The body of the removal loop for one id. */
    method LogRemoval(prev: map<string, Prior>, wid: string, rid: string, ts: string) returns (entry: Removal)
      requires rid in prev
      modifies this
      ensures entry == Removal(rid, prev[rid].name)
      ensures items == old(items)
      ensures events == old(events) + [Event(ts, wid, Removed, rid, prev[rid].name, None, None)]
    {
      var name := prev[rid].name;
      entry := Removal(rid, name);
      Log(Event(ts, wid, Removed, rid, name, None, None));
    }

    /** The removal loop over `removed_ids`, in whatever order the set yields them. */
    method LogRemovals(prev: map<string, Prior>, wid: string, removedIds: set<string>, ts: string)
      returns (removed: seq<Removal>)
      requires removedIds <= prev.Keys
      modifies this
      ensures RemovalsCover(prev, removed, removedIds)
      ensures items == old(items)
      ensures events == old(events) + RemovalEvents(wid, removed, ts)
    {
      var order := Enumerate(removedIds);
      forall i | 0 <= i < |order|
        ensures order[i] in prev
      {
        assert order[i] in order;
      }
      removed := LogInOrder(prev, wid, order, ts);
      RemovalsForCover(prev, order, removedIds);
    }

    /** The removal loop once the set's order is fixed: one entry and one event per id, in that order. */
    method LogInOrder(prev: map<string, Prior>, wid: string, order: seq<string>, ts: string)
      returns (removed: seq<Removal>)
      requires forall i :: 0 <= i < |order| ==> order[i] in prev
      modifies this
      ensures removed == RemovalsFor(prev, order)
      ensures items == old(items)
      ensures events == old(events) + RemovalEvents(wid, removed, ts)
    {
      removed := [];
      ghost var table0, events0 := items, events;
      for k := 0 to |order|
        invariant removed == RemovalsFor(prev, order[..k])
        invariant items == table0
        invariant events == events0 + RemovalEvents(wid, removed, ts)
      {
        var entry := LogRemoval(prev, wid, order[k], ts);
        RemovalEventsSnoc(wid, removed, entry, ts);
        RemovalsForSnoc(prev, order, k);
        removed := removed + [entry];
      }
      assert order[..|order|] == order;
    }
  }
}
