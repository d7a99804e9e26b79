/**
 * The JSON-LD extractor in effect (`extract_items_jsonld` as redefined at
 * monitor_throne.py:74): every `ItemList` node of every
 * `application/ld+json` block yields one record per `ListItem` wrapper, and
 * the records are de-duplicated by id. Locating the script blocks and
 * decoding them are outside the model: each block arrives decoded, or None
 * when `json.loads` rejected it.
 */
module JsonLd {
  import opened Wrappers
  import opened Json
  import opened Items

  /**
   * Price and currency read from one offer dict: `priceCurrency` when truthy,
   * else `USD`; the price is parsed from `str(price)` unless it is null.
   */
  function OfferFrom(o: Oracles, off: Json): (terms: (int, Json))
    requires off.JObject?
    ensures Get(off, "price") == JNull ==> terms.0 == UnknownPrice
    ensures Get(off, "price") != JNull ==> terms.0 == ParsedOrUnknown(o.cents(Str(o.repr, Get(off, "price"))))
    ensures Truthy(Get(off, "priceCurrency")) ==> terms.1 == Get(off, "priceCurrency")
    ensures !Truthy(Get(off, "priceCurrency")) ==> terms.1 == JStr("USD")
    ensures Truthy(terms.1)
  {
    var price := Get(off, "price");
    var currency := Or(Get(off, "priceCurrency"), JStr("USD"));
    (if price == JNull then UnknownPrice else ParsedOrUnknown(o.cents(Str(o.repr, price))), currency)
  }

  /**
   * The `offers` value of an item: a dict is read directly, a non-empty list
   * through its first element (which must be a dict, or `.get` raises);
   * anything else leaves the price unknown and the currency `USD`.
   */
  function OfferTerms(o: Oracles, offers: Json): (r: Result<(int, Json), Fault>)
    ensures offers.JObject? ==> r == Ok(OfferFrom(o, offers))
    ensures offers.JArray? && offers.elems != [] && offers.elems[0].JObject? ==> r == Ok(OfferFrom(o, offers.elems[0]))
    ensures offers.JArray? && offers.elems != [] && !offers.elems[0].JObject? ==> r == Err(Raised)
    ensures !offers.JObject? && !(offers.JArray? && offers.elems != []) ==> r == Ok((UnknownPrice, JStr("USD")))
    ensures r.Ok? ==> Truthy(r.value.1)
  {
    if offers.JObject? then Ok(OfferFrom(o, offers))
    else if offers.JArray? && offers.elems != [] then
      var off := offers.elems[0];
      if off.JObject? then Ok(OfferFrom(o, off)) else Err(Raised)
    else Ok((UnknownPrice, JStr("USD")))
  }

  /** Only the first offer of a list counts: the offers after it never matter, and it reads as a lone offer dict. */
  lemma OnlyFirstOfferCounts(o: Oracles, off: Json, rest1: seq<Json>, rest2: seq<Json>)
    requires off.JObject?
    ensures OfferTerms(o, JArray([off] + rest1)) == OfferTerms(o, JArray([off] + rest2)) == OfferTerms(o, off)
  {
    assert ([off] + rest1)[0] == off && ([off] + rest2)[0] == off;
  }

  /** The node an `itemListElement` entry describes: its `"item"` value when it is a dict, else the entry itself. */
  function ListedNode(el: Json): Json
  {
    if el.JObject? then Get(el, "item") else el
  }

  /** The `or ""` fallbacks of a listed node. */
  function NodeName(item: Json): Json
    requires item.JObject?
  {
    Or(Get(item, "name"), JStr(""))
  }

  function NodeUrl(item: Json): Json
    requires item.JObject?
  {
    Or(Get(item, "url"), JStr(""))
  }

  function NodeImage(item: Json): Json
    requires item.JObject?
  {
    Or(Get(item, "image"), JStr(""))
  }

  /** Whether a listed dict yields a record: string name, URL and image, and offers that read with a string currency. */
  predicate NodeReadable(o: Oracles, item: Json)
    requires item.JObject?
  {
    && NodeName(item).JStr? && NodeUrl(item).JStr? && NodeImage(item).JStr?
    && OfferTerms(o, Get(item, "offers")).Ok? && OfferTerms(o, Get(item, "offers")).value.1.JStr?
  }

  /**
   * The record a listed dict yields, or the fault the source raises: the
   * offers are read first, then the id is derived, then `name.strip()` needs
   * a string, and the text columns need strings. The record's id is `@id`,
   * else the URL's SHA-1, else the SHA-1 of the name; its name is stripped;
   * price and currency come from the offers; URL and image are kept as
   * given; `available` is 1.
   */
  function NodeRecord(o: Oracles, item: Json): (r: Result<Item, Fault>)
    requires item.JObject?
    ensures r.Ok? <==> NodeReadable(o, item)
    ensures r.Ok? ==>
              && DeriveId(o, Get(item, "@id"), NodeName(item), NodeUrl(item)) == Ok(r.value.itemId)
              && r.value.name == Text.Strip(NodeName(item).s)
              && OfferTerms(o, Get(item, "offers")) == Ok((r.value.priceCents, JStr(r.value.currency)))
              && r.value.currency != []
              && NodeUrl(item) == JStr(r.value.productUrl)
              && NodeImage(item) == JStr(r.value.imageUrl)
              && r.value.available == 1
  {
    var terms := OfferTerms(o, Get(item, "offers"));
    if terms.Err? then Err(terms.error)
    else
      var id := DeriveId(o, Get(item, "@id"), NodeName(item), NodeUrl(item));
      if id.Err? then Err(id.error)
      else if !NodeName(item).JStr? then Err(Raised)   // `name.strip()` on a non-string
      // sqlite3 cannot bind these as text
      else if !terms.value.1.JStr? || !NodeUrl(item).JStr? || !NodeImage(item).JStr? then Err(Unrepresentable)
      else
        Ok(Item(id.value, Text.Strip(NodeName(item).s), terms.value.0, terms.value.1.s,
                NodeUrl(item).s, NodeImage(item).s, 1))
  }

  /**
   * One `itemListElement` entry: None (skipped) unless it wraps a dict under
   * `"item"`; otherwise that dict's record, or the fault the source raises.
   */
  function ElementItem(o: Oracles, el: Json): (r: Result<Option<Item>, Fault>)
    ensures !el.JObject? ==> r == Ok(None)
    ensures r == Ok(None) <==> !ListedNode(el).JObject?
    ensures r.Ok? && r.value.Some? <==> ListedNode(el).JObject? && NodeReadable(o, ListedNode(el))
    ensures r.Ok? && r.value.Some? ==> r == Ok(Some(NodeRecord(o, ListedNode(el)).value))
  {
    var item := ListedNode(el);
    if !item.JObject? then Ok(None)
    else
      var rec :- NodeRecord(o, item);
      Ok(Some(rec))
  }

  /** An entry that is a bare product, not wrapped under `"item"`, yields nothing. */
  lemma UnwrappedEntrySkipped(o: Oracles, el: Json)
    requires el.JObject? && forall i :: 0 <= i < |el.members| ==> el.members[i].key != "item"
    ensures ElementItem(o, el) == Ok(None)
  {
    MissingKeyIsNull(el.members, "item");
  }

  /** What every JSON-LD record carries: `available = 1` and a non-empty currency. */
  predicate ListedRecord(it: Item)
  {
    it.available == 1 && it.currency != []
  }

  function ElementItems(o: Oracles, el: Json): (r: Result<seq<Item>, Fault>)
    ensures r.Ok? ==> forall y :: y in r.value ==> ListedRecord(y)
  {
    var r :- ElementItem(o, el);
    if r.Some? then Ok([r.value]) else Ok([])
  }

  function ElementStep(o: Oracles): Json -> Result<seq<Item>, Fault>
  {
    (el: Json) => ElementItems(o, el)
  }

  /** `d.get("@type") == "ItemList" and isinstance(d.get("itemListElement"), list)`. */
  predicate IsItemList(d: Json)
    requires d.JObject?
  {
    Get(d, "@type") == JStr("ItemList") && Get(d, "itemListElement").JArray?
  }

  /** One decoded node: `d.get` raises on a non-dict; an `ItemList` yields its entries' records; anything else nothing. */
  function NodeItems(o: Oracles, d: Json): (r: Result<seq<Item>, Fault>)
    ensures !d.JObject? ==> r == Err(Raised)
    ensures d.JObject? && !IsItemList(d) ==> r == Ok([])
    ensures r.Ok? ==> forall y :: y in r.value ==> ListedRecord(y)
  {
    if !d.JObject? then Err(Raised)
    else if IsItemList(d) then FlatMapAll(ElementStep(o), Get(d, "itemListElement").elems)
    else Ok([])
  }

  function NodeStep(o: Oracles): Json -> Result<seq<Item>, Fault>
  {
    (d: Json) => NodeItems(o, d)
  }

  /** `data if isinstance(data, list) else [data]`. */
  function DataList(data: Json): seq<Json>
  {
    if data.JArray? then data.elems else [data]
  }

  /** One script block: nothing when it did not decode, else the records of its nodes. */
  function BlockItems(o: Oracles, block: Option<Json>): (r: Result<seq<Item>, Fault>)
    ensures block.None? ==> r == Ok([])
    ensures block.Some? ==> (r.Ok? <==> forall d :: d in DataList(block.value) ==> NodeItems(o, d).Ok?)
    ensures r.Ok? ==> forall y :: y in r.value ==> ListedRecord(y)
  {
    if block.None? then Ok([]) else FlatMapAll(NodeStep(o), DataList(block.value))
  }

  function BlockStep(o: Oracles): Option<Json> -> Result<seq<Item>, Fault>
  {
    (block: Option<Json>) => BlockItems(o, block)
  }

  /** All records of all blocks, in document order, before de-duplication; a block that did not decode is skipped. */
  function Candidates(o: Oracles, blocks: seq<Option<Json>>): (r: Result<seq<Item>, Fault>)
    ensures r.Ok? <==> forall i :: 0 <= i < |blocks| ==> BlockItems(o, blocks[i]).Ok?
    ensures r.Ok? ==> forall y :: y in r.value ==> ListedRecord(y)
  {
    FlatMapAll(BlockStep(o), blocks)
  }

  /** The loop over one `itemListElement` list. */
  method CollectEntries(o: Oracles, els: seq<Json>) returns (r: Result<seq<Item>, Fault>)
    ensures r == FlatMapAll(ElementStep(o), els)
  {
    var out: seq<Item> := [];
    for k := 0 to |els|
      invariant FlatMapAll(ElementStep(o), els[..k]) == Ok(out)
    {
      FlatMapAllSnoc(ElementStep(o), els, k);
      var e := ElementItem(o, els[k]);
      assert ElementStep(o)(els[k]) == ElementItems(o, els[k]);
      if e.Err? {
        return Err(e.error);
      }
      if e.value.Some? {
        out := out + [e.value.value];
      } else {
        assert out + [] == out;
      }
    }
    assert els[..|els|] == els;
    return Ok(out);
  }

  /** The loop over the nodes of one decoded script block. */
  method CollectBlock(o: Oracles, block: Option<Json>) returns (r: Result<seq<Item>, Fault>)
    ensures r == BlockItems(o, block)
  {
    if block.None? {
      return Ok([]);
    }
    var dataList := DataList(block.value);
    var out: seq<Item> := [];
    for j := 0 to |dataList|
      invariant FlatMapAll(NodeStep(o), dataList[..j]) == Ok(out)
    {
      FlatMapAllSnoc(NodeStep(o), dataList, j);
      var d := dataList[j];
      assert NodeStep(o)(d) == NodeItems(o, d);
      if !d.JObject? {
        return Err(Raised);
      }
      if IsItemList(d) {
        var found := CollectEntries(o, Get(d, "itemListElement").elems);
        if found.Err? {
          return Err(found.error);
        }
        out := out + found.value;
      } else {
        assert out + [] == out;
      }
    }
    assert dataList[..|dataList|] == dataList;
    return Ok(out);
  }

  /**
   * `extract_items_jsonld`: the candidates of every block, then the
   * de-duplication by item id (last record per id, in first-occurrence order).
   */
  method ExtractJsonLd(o: Oracles, blocks: seq<Option<Json>>) returns (r: Result<seq<Item>, Fault>)
    ensures Candidates(o, blocks).Err? ==> r == Err(Candidates(o, blocks).error)
    ensures Candidates(o, blocks).Ok? ==>
              (r.Ok? &&
               var cands := Candidates(o, blocks).value;
               && DistinctKeys(r.value, ItemKey)
               && KeySet(r.value, ItemKey) == KeySet(cands, ItemKey)
               && (forall i :: 0 <= i < |r.value| ==>
                    r.value[i].itemId in KeySet(cands, ItemKey) &&
                    r.value[i] == cands[LastIndex(cands, ItemKey, r.value[i].itemId)])
               && (forall i, j :: 0 <= i < j < |r.value| ==>
                    r.value[i].itemId in KeySet(cands, ItemKey) && r.value[j].itemId in KeySet(cands, ItemKey) &&
                    FirstIndex(cands, ItemKey, r.value[i].itemId) < FirstIndex(cands, ItemKey, r.value[j].itemId))
               && forall i :: 0 <= i < |r.value| ==> ListedRecord(r.value[i]))
  {
    var out: seq<Item> := [];
    for b := 0 to |blocks|
      invariant Candidates(o, blocks[..b]) == Ok(out)
    {
      FlatMapAllSnoc(BlockStep(o), blocks, b);
      var found := CollectBlock(o, blocks[b]);
      if found.Err? {
        return Err(found.error);
      }
      out := out + found.value;
    }
    assert blocks[..|blocks|] == blocks;
    var uniq := Dedup(out, ItemKey);
    return Ok(uniq);
  }
}
