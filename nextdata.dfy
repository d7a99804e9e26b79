/**
 * The `__NEXT_DATA__` extractor (`extract_items_next_data`): a depth-first
 * walk of the page's application-state JSON that keeps the last `items` list
 * whose elements look like products, then one normalised record per element.
 * Locating the script tag and decoding it are outside the model: the
 * extractor receives the decoded value, or None when there is none.
 */
module NextData {
  import opened Wrappers
  import opened Json
  import opened Text
  import opened Items

  /** `isinstance(x, dict) and ("name" in x or "title" in x)`. */
  predicate ProductShaped(x: Json)
  {
    x.JObject? && (HasKey(x, "name") || HasKey(x, "title"))
  }

  /**
   * A dict whose `"items"` value is a list with at least one product-shaped
   * element; such a list is never empty, so `if not items` only sees the
   * walk's initial `[]`.
   */
  predicate Qualifies(node: Json)
    ensures Qualifies(node) ==> node.JObject? && Get(node, "items").JArray? && Get(node, "items").elems != []
  {
    node.JObject? && Get(node, "items").JArray? && exists x :: x in Get(node, "items").elems && ProductShaped(x)
  }

  /** Every qualifying `items` list inside `node`, in the pre-order in which the walk meets them. */
  function QualifyingLists(node: Json): (lists: seq<seq<Json>>)
    ensures forall l :: l in lists ==> l != []
    decreases node, 1
  {
    (if Qualifies(node) then [Get(node, "items").elems] else []) + QualifyingInChildren(node, ChildCount(node))
  }

  /** The qualifying lists inside the first `n` children of `node`, in walk order. */
  function QualifyingInChildren(node: Json, n: nat): (lists: seq<seq<Json>>)
    requires n <= ChildCount(node)
    ensures forall l :: l in lists ==> l != []
    decreases node, 0, n
  {
    if n == 0 then [] else QualifyingInChildren(node, n - 1) + QualifyingLists(ChildAt(node, n - 1))
  }

  /** The last of `lists`, or `default` when there is none. */
  function LastOr(lists: seq<seq<Json>>, default: seq<Json>): seq<Json>
  {
    if lists == [] then default else lists[|lists| - 1]
  }

  /**
   * `deep_iter`: visits `node` and everything below it, assigning the
   * non-local `items` at each qualifying dict. The result is the last
   * qualifying list in pre-order, or the incoming `items` when none qualifies.
   */
  method DeepIter(node: Json, items: seq<Json>) returns (r: seq<Json>)
    ensures r == LastOr(QualifyingLists(node), items)
    decreases node
  {
    r := items;
    if Qualifies(node) {
      r := Get(node, "items").elems;
    }
    ghost var atNode := r;
    for i := 0 to ChildCount(node)
      invariant r == LastOr(QualifyingInChildren(node, i), atNode)
    {
      r := DeepIter(ChildAt(node, i), r);
    }
  }

  /** A one-member dict holding a string has no qualifying list. */
  lemma {:induction false} ScalarMemberHasNoLists(k: string, v: string)
    ensures QualifyingLists(JObject([Member(k, JStr(v))])) == []
  {
    var d := JObject([Member(k, JStr(v))]);
    assert !Get(d, "items").JArray?;
    assert QualifyingInChildren(d, 1) == QualifyingInChildren(d, 0) + QualifyingLists(JStr(v));
  }

  /** `{"items": [x]}` for a product-shaped `x` with nothing qualifying inside it yields exactly `[x]`. */
  lemma {:induction false} ItemsWrapperLists(x: Json)
    requires ProductShaped(x) && QualifyingLists(x) == []
    ensures QualifyingLists(JObject([Member("items", JArray([x]))])) == [[x]]
  {
    var arr := JArray([x]);
    var d := JObject([Member("items", arr)]);
    assert Get(d, "items") == arr && x in arr.elems;
    assert !arr.JObject?;
    assert QualifyingInChildren(arr, 1) == QualifyingInChildren(arr, 0) + QualifyingLists(x);
    assert QualifyingInChildren(d, 1) == QualifyingInChildren(d, 0) + QualifyingLists(arr);
  }

  /** A two-member dict without an `"items"` key holds the lists of its first value, then of its second. */
  lemma {:induction false} TwoMemberLists(k1: string, v1: Json, k2: string, v2: Json)
    requires k1 != "items" && k2 != "items"
    ensures QualifyingLists(JObject([Member(k1, v1), Member(k2, v2)])) == QualifyingLists(v1) + QualifyingLists(v2)
  {
    var d := JObject([Member(k1, v1), Member(k2, v2)]);
    MissingKeyIsNull(d.members, "items");
    assert ChildAt(d, 0) == v1 && ChildAt(d, 1) == v2;
    assert QualifyingInChildren(d, 1) == QualifyingInChildren(d, 0) + QualifyingLists(v1);
    assert QualifyingInChildren(d, 2) == QualifyingInChildren(d, 1) + QualifyingLists(v2);
  }

  /** When two dicts qualify, the one met later in the walk wins, not the first. */
  lemma LaterQualifyingListWins()
    ensures var first := [JObject([Member("name", JStr("first"))])];
      var second := [JObject([Member("title", JStr("second"))])];
      var data := JObject([
        Member("a", JObject([Member("items", JArray(first))])),
        Member("b", JObject([Member("items", JArray(second))]))]);
      LastOr(QualifyingLists(data), []) == second
  {
    var x1 := JObject([Member("name", JStr("first"))]);
    var x2 := JObject([Member("title", JStr("second"))]);
    assert ProductShaped(x1) by { assert x1.members[0].key == "name"; }
    assert ProductShaped(x2) by { assert x2.members[0].key == "title"; }
    ScalarMemberHasNoLists("name", "first");
    ScalarMemberHasNoLists("title", "second");
    ItemsWrapperLists(x1);
    ItemsWrapperLists(x2);
    var a := JObject([Member("items", JArray([x1]))]);
    var b := JObject([Member("items", JArray([x2]))]);
    TwoMemberLists("a", a, "b", b);
  }

  /** `str(price).replace("$", "").strip()`: the text the price parse sees. */
  function CleanPriceText(s: string): string
  {
    Strip(RemoveChar(s, '$'))
  }

  /** Cleaning a cleaned price text changes nothing. */
  lemma CleanPriceTextIdempotent(s: string)
    ensures CleanPriceText(CleanPriceText(s)) == CleanPriceText(s)
  {
    var t := RemoveChar(s, '$');
    StripKeepsAbsent(t, '$');
    assert RemoveChar(Strip(t), '$') == Strip(t);
    StripIdempotent(t);
  }

  /**
   * The price of a record: an `int` (or `bool`, which Python counts as one)
   * is taken as cents; a float or string goes through the price parse after
   * `str(price).replace("$", "").strip()`; anything else is unknown.
   */
  function RecordPrice(o: Oracles, price: Json): (cents: int)
    ensures price.JInt? ==> cents == price.i
    ensures price.JBool? ==> cents == if price.b then 1 else 0
    ensures price == JNull ==> cents == UnknownPrice
    ensures price.JArray? || price.JObject? ==> cents == UnknownPrice
  {
    match price
    case JInt(i) => i
    case JBool(b) => if b then 1 else 0
    case JReal(_) => ParsedOrUnknown(o.cents(CleanPriceText(Str(o.repr, price))))
    case JStr(_) => ParsedOrUnknown(o.cents(CleanPriceText(Str(o.repr, price))))
    case _ => UnknownPrice
  }

  /** A float price is read through its `str()` text, exactly as a string price with that text. */
  lemma RecordPriceReadsText(o: Oracles, price: Json)
    requires price.JReal?
    ensures RecordPrice(o, price) == RecordPrice(o, JStr(Str(o.repr, price)))
  {
    assert RecordPrice(o, price) == ParsedOrUnknown(o.cents(CleanPriceText(Str(o.repr, price))));
    RecordPriceOfString(o, Str(o.repr, price));
  }

  /**
   * A string price reads the same as its `$`-free, stripped text: the
   * clean-up happens before the parse, so `"$12.50 "` and `"12.50"` agree.
   */
  lemma RecordPriceCleansText(o: Oracles, s: string)
    ensures RecordPrice(o, JStr(s)) == RecordPrice(o, JStr(CleanPriceText(s)))
  {
    var c := CleanPriceText(s);
    RecordPriceOfString(o, s);
    RecordPriceOfString(o, c);
    CleanPriceTextIdempotent(s);
  }

  /** A string price is the parse of its cleaned text. */
  lemma RecordPriceOfString(o: Oracles, s: string)
    ensures RecordPrice(o, JStr(s)) == ParsedOrUnknown(o.cents(CleanPriceText(s)))
  {
    var p := JStr(s);
    assert p.s == s;
    assert Str(o.repr, p) == s;
    assert RecordPrice(o, p) == ParsedOrUnknown(o.cents(CleanPriceText(Str(o.repr, p))));
  }

  /** A clean string price, with no `$` and no surrounding white space, goes straight to the parse. */
  lemma RecordPriceCleanText(o: Oracles, s: string)
    requires '$' !in s && Strip(s) == s
    ensures RecordPrice(o, JStr(s)) == ParsedOrUnknown(o.cents(s))
  {
    RecordPriceOfString(o, s);
    assert RemoveChar(s, '$') == s;
  }

  /** The fallback chains of one record. */
  function RecordName(it: Json): Json
    requires it.JObject?
  {
    Or(Get(it, "name"), Or(Get(it, "title"), JStr("")))
  }

  function RecordPriceField(it: Json): Json
    requires it.JObject?
  {
    Or(Get(it, "price"), Or(Get(it, "price_cents"), Get(it, "priceCents")))
  }

  function RecordUrl(it: Json): Json
    requires it.JObject?
  {
    Or(Get(it, "url"), Or(Get(it, "productUrl"), Or(Get(it, "url_path"), JStr(""))))
  }

  function RecordExplicitId(it: Json): Json
    requires it.JObject?
  {
    Or(Get(it, "id"), Get(it, "uuid"))
  }

  function RecordCurrency(it: Json): (c: Json)
    requires it.JObject?
    ensures Truthy(c)
  {
    Or(Get(it, "currency"), Or(Get(it, "currencyCode"), JStr("USD")))
  }

  function RecordImage(it: Json): Json
    requires it.JObject?
  {
    Or(Get(it, "image"), Or(Get(it, "imageUrl"), JStr("")))
  }

  /**
   * One element of the chosen list turned into an item. A non-dict element
   * raises (`it.get` on it); so does an id derivation that needs `.encode()`
   * or `+` on a non-string.
   */
  function NormalizeRecord(o: Oracles, it: Json): (r: Result<Item, Fault>)
    ensures !it.JObject? ==> r == Err(Raised)
    ensures r.Ok? ==>
              && it.JObject?
              && DeriveId(o, RecordExplicitId(it), RecordName(it), RecordUrl(it)) == Ok(r.value.itemId)
              && r.value.name == Strip(Str(o.repr, RecordName(it)))
              && r.value.priceCents == RecordPrice(o, RecordPriceField(it))
              && RecordCurrency(it) == JStr(r.value.currency) && r.value.currency != []
              && RecordUrl(it) == JStr(r.value.productUrl)
              && RecordImage(it) == JStr(r.value.imageUrl)
              && (r.value.available == 0 || r.value.available == 1)
              && (r.value.available == 0 <==> Get(it, "available") != JNull && !Truthy(Get(it, "available")))
    ensures (&& it.JObject? && RecordCurrency(it).JStr? && RecordUrl(it).JStr? && RecordImage(it).JStr?
             && (Truthy(RecordExplicitId(it)) || (Truthy(RecordUrl(it)) && HexDigests(o)) || RecordName(it).JStr?))
            ==> r.Ok?
  {
    if !it.JObject? then Err(Raised)
    else
      var id := DeriveId(o, RecordExplicitId(it), RecordName(it), RecordUrl(it));
      if id.Err? then Err(id.error)
      // sqlite3 cannot bind these as text
      else if !RecordCurrency(it).JStr? || !RecordUrl(it).JStr? || !RecordImage(it).JStr? then Err(Unrepresentable)
      else
        Ok(Item(id.value, Strip(Str(o.repr, RecordName(it))), RecordPrice(o, RecordPriceField(it)),
                RecordCurrency(it).s, RecordUrl(it).s, RecordImage(it).s, Availability(Get(it, "available"))))
  }

  /** `1 if bool(avail) else 0`, with an absent `available` read as 1. */
  function Availability(avail: Json): (a: int)
    ensures a == 0 || a == 1
    ensures a == 0 <==> avail != JNull && !Truthy(avail)
  {
    if avail == JNull || Truthy(avail) then 1 else 0
  }

  /**
   * The identity of a normalised record: a truthy `id` or `uuid` as text;
   * else the SHA-1 of a non-empty URL; else the SHA-1 of the name (the URL
   * being empty, `name + url` is the name).
   */
  lemma RecordIdPrecedence(o: Oracles, it: Json)
    requires NormalizeRecord(o, it).Ok?
    ensures var id := NormalizeRecord(o, it).value.itemId;
            && it.JObject?
            && (Truthy(RecordExplicitId(it)) ==> id == Str(o.repr, RecordExplicitId(it)))
            && (!Truthy(RecordExplicitId(it)) && Truthy(RecordUrl(it)) && HexDigests(o) ==> id == o.sha1(RecordUrl(it).s))
            && (!Truthy(RecordExplicitId(it)) && !Truthy(RecordUrl(it)) ==> id == o.sha1(Str(o.repr, RecordName(it))))
  {
  }

  /**
   * A zero under `"price"` is falsy, so the `or` chain moves past it: with no
   * other price field the record's price is the unknown sentinel, not zero.
   */
  lemma ZeroPriceReadsUnknown(it: Json)
    requires it.JObject?
    requires Get(it, "price") == JInt(0) && Get(it, "price_cents") == JNull && Get(it, "priceCents") == JNull
    ensures forall o: Oracles :: NormalizeRecord(o, it).Ok? ==> NormalizeRecord(o, it).value.priceCents == UnknownPrice
  {
    assert !Truthy(JInt(0)) && Or(JNull, JNull) == JNull;
    assert RecordPriceField(it) == JNull;
  }

  function RecordStep(o: Oracles): Json -> Result<Item, Fault>
  {
    (rec: Json) => NormalizeRecord(o, rec)
  }

  /** The records of the chosen list, in order; the first record that raises stops the extractor. */
  function NormalizeAll(o: Oracles, recs: seq<Json>): Result<seq<Item>, Fault>
  {
    MapAll(RecordStep(o), recs)
  }

  /** The normalisation loop over the chosen list. */
  method NormalizeRecords(o: Oracles, recs: seq<Json>) returns (r: Result<seq<Item>, Fault>)
    ensures r == NormalizeAll(o, recs)
  {
    var normalized: seq<Item> := [];
    for i := 0 to |recs|
      invariant MapAll(RecordStep(o), recs[..i]) == Ok(normalized)
    {
      MapAllSnoc(RecordStep(o), recs, i);
      var rec := NormalizeRecord(o, recs[i]);
      assert RecordStep(o)(recs[i]) == rec;
      if rec.Err? {
        return Err(rec.error);
      }
      normalized := normalized + [rec.value];
    }
    assert recs[..|recs|] == recs;
    return Ok(normalized);
  }

  /**
   * `extract_items_next_data` from the decoded state on: None without data or
   * without a qualifying list, otherwise the normalised records of the last
   * qualifying list, or the fault the first failing record raises.
   */
  method ExtractNextData(o: Oracles, data: Option<Json>) returns (r: Result<Option<seq<Item>>, Fault>)
    ensures data.None? ==> r == Ok(None)
    ensures data.Some? && QualifyingLists(data.value) == [] ==> r == Ok(None)
    ensures data.Some? && QualifyingLists(data.value) != [] ==>
              var chosen := QualifyingLists(data.value)[|QualifyingLists(data.value)| - 1];
              match NormalizeAll(o, chosen)
              case Ok(items) => r == Ok(Some(items))
              case Err(e) => r == Err(e)
  {
    if data.None? {
      return Ok(None);
    }
    var items := DeepIter(data.value, []);
    ghost var lists := QualifyingLists(data.value);
    assert lists != [] ==> lists[|lists| - 1] in lists;
    if |items| == 0 {
      return Ok(None);
    }
    var normalized := NormalizeRecords(o, items);
    if normalized.Err? {
      return Err(normalized.error);
    }
    return Ok(Some(normalized.value));
  }
}
