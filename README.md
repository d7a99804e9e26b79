# Throne wishlist monitor — a verified model of its core

`monitor_throne.py` polls public Throne wishlists and reports what changed.
For every target (a handle or a URL) it:

- fetches the wishlist page;
- extracts the items with the first of three extractors that yields any:
  - the `__NEXT_DATA__` application state;
  - schema.org JSON-LD `ItemList` blocks;
  - an HTML scan;
- reconciles the items against the SQLite `items` table for that wishlist,
  logging `added`, `price_change` and `removed` rows to the `events` table;
- e-mails a plain-text summary of the changes.

This project models the parts of that script that decide *what* is reported.
It then proves what the script promises about them.

| module (file) | what it models |
|---|---|
| `Wrappers` (wrappers.dfy) | `Option` and `Result`; a `Result` error is a Python exception escaping an extractor |
| `Text` (text.dfy) | `str.strip()`, `str.replace(c, "")` and `str(n)` for integers |
| `Target` (target.dfy) | `normalize_target` and `_sanitize_filename` |
| `Json` (json.dfy) | decoded JSON values with Python's truthiness, `dict.get`, `x or y` and `str(x)` |
| `Items` (items.dfy) | the item record, the identity rule, the normalisation loops and the last-wins de-duplication into a dict |
| `NextData` (nextdata.dfy) | `deep_iter` and the record normalisation of `extract_items_next_data` |
| `JsonLd` (jsonld.dfy) | the live `extract_items_jsonld` |
| `Pipeline` (pipeline.dfy) | the extractor choice in `get_items_for_target` |
| `Reconcile` (reconcile.dfy) | `diff_and_store`. The `Store` class holds the `items` table as a map keyed by (wishlist id, item id) and the `events` table as an append-only sequence. |
| `Summary` (summary.dfy) | `cents_to_str` and `summarize_changes` |

Imperative parts are methods with loops proved against specification functions:

- the item loop and the removal loop of `diff_and_store`, which update the `Store` fields;
- the recursive `deep_iter`, which reassigns the non-local `items`;
- the normalisation loops;
- the de-duplication loops.

Their loop invariants tie each loop to those functions. Lemmas state what the functions promise.

Python behaviour is written out explicitly:

- **Exceptions.** `AttributeError` or `TypeError` raised on a value of an unexpected type becomes `Fault.Raised`. It propagates out of the extractor, as in the script.
- **Opaque operations.** sha1, the float price parse `int(round(float(s) * 100))` and `str()` of a float or container are fields of an `Oracles` value. Every property holds for any choice of them.
- **Timestamp.** `ts` is a parameter, not the clock.

### Behaviour worth knowing

- **`deep_iter` keeps the last qualifying list.** The walk does not stop at the first match. It assigns `items = maybe` at every qualifying dict and keeps walking (monitor_throne.py:306-311), so the last qualifying list in pre-order wins. `NextData.DeepIter` states this, and `NextData.LaterQualifyingListWins` exhibits one document with two qualifying lists where the later one is chosen.
- **A zero price can become unknown.** In `__NEXT_DATA__` records, `price or price_cents or priceCents` skips a falsy `0` (monitor_throne.py:324). A record whose only price is `"price": 0` is stored with the `-1` sentinel (`NextData.ZeroPriceReadsUnknown`).
- **Unwrapped JSON-LD entries are skipped.** The live extractor reads only `el.get("item")` (monitor_throne.py:88-90), so an `itemListElement` entry that is itself the item, without an `"item"` dict, yields nothing (`JsonLd.UnwrappedEntrySkipped`).
- **Extractors can raise.** The model returns `Err(Raised)` where the code raises:
  - `.get` on a non-dict JSON-LD node or first offer;
  - `.strip()` on a non-string name;
  - `.get` on a non-dict `__NEXT_DATA__` record;
  - `sha1` of a non-string URL.
- **String and integer ids merge.** `str(item_id)` turns `"id": 7` and `"id": "7"` into the same key, so de-duplication and the `items` table treat them as one item (`Json.StrIntMatchesString`).

## Model

| member | source | states |
|---|---|---|
| Text.Strip | monitor_throne.py:343 | the result of `strip()` is no longer than its input and neither starts nor ends with Python white space |
| Text.StripKeepsSlice | monitor_throne.py:343 | `strip()` keeps one contiguous slice of its input, starting where the leading white space ends |
| Text.StripDropsOnlySpace | monitor_throne.py:343 | everything `strip()` drops, before or after the kept slice, is Python white space |
| Text.StripStartDropsSpace | monitor_throne.py:343 | the leading part `strip()` drops is all white space |
| Text.StripEndDropsSpace | monitor_throne.py:343 | the trailing part `strip()` drops is all white space |
| Text.StripIdempotent | monitor_throne.py:117 | stripping a stripped name changes nothing |
| Text.RemoveChar | monitor_throne.py:337 | `replace("$", "")` keeps every other character with its multiplicity and removes every `$`; no `$` means no change |
| Text.RemoveCharConcat | monitor_throne.py:337 | the removal works piece by piece, so the kept characters stay in their order |
| Text.NatToString | monitor_throne.py:342 | `str(n)` is a non-empty run of decimal digits with no leading zero unless n is 0 |
| Text.NatToStringRoundTrip | monitor_throne.py:342 | reading back the digits of `str(n)` gives n |
| Text.IntToString | monitor_throne.py:342 | `str(i)` is `-` and the digits of -i for negative i, and the digits of i otherwise |
| Text.IntToStringInjective | monitor_throne.py:342 | distinct integers have distinct `str()` |
| Target.NormalizeTarget | monitor_throne.py:285-289 | an http(s) URL passes through unchanged; any other t becomes the handle prefix, then t at its offset, then `/wishlist` at the end; the result is always an http(s) URL |
| Target.NormalizeTargetIdempotent | monitor_throne.py:285-289 | normalising twice is normalising once |
| Target.HandleRecoverable | monitor_throne.py:289 | the handle can be read back out of the URL built from it |
| Target.ReplaceUnsafeRuns | monitor_throne.py:237 | the substitution never lengthens the name and leaves it empty exactly when it was empty |
| Target.ReplacedIsSafe | monitor_throne.py:237 | after the substitution only `[A-Za-z0-9._-]` characters remain |
| Target.ReplaceKeepsSafe | monitor_throne.py:237 | a string of allowed characters is left as it is |
| Target.UnsafeRunCollapses | monitor_throne.py:237 | a whole run of disallowed characters becomes a single `_` |
| Target.SafeHeadCopied | monitor_throne.py:237 | an allowed character is copied unchanged |
| Target.SkipRun | monitor_throne.py:237 | the regex's `+` consumes the whole run up to the next allowed character |
| Target.SanitizeFilename | monitor_throne.py:236-238 | the name holds only allowed characters and is a prefix of the substituted URL: all of it when it is at most 150 long, exactly its first 150 characters otherwise |
| Target.SanitizeIdempotent | monitor_throne.py:236-238 | sanitising a sanitised name changes nothing |
| Json.Or | monitor_throne.py:323-328 | `a or b` is truthy exactly when a or b is; it is `a` when a is truthy and `b` otherwise |
| Json.OrAssociative | monitor_throne.py:323-328 | an `or` chain picks the same value however it is grouped |
| Json.OrFirstTruthyWins | monitor_throne.py:323-328 | after a falsy first operand, a truthy second one wins whatever follows |
| Json.MissingKeyIsNull | monitor_throne.py:88 | `d.get(k)` of a dict without key k is `None` |
| Json.Str | monitor_throne.py:342 | `str()` of a string is itself, of an int its decimal form, of `True`/`False` the words `True`/`False`, and of `None` the word `None` |
| Json.StrIntInjective | monitor_throne.py:342 | two int ids give the same `str()` only when they are equal |
| Json.StrIntMatchesString | monitor_throne.py:342 | an int id and the string of its digits give the same `str()`, so they become one item id |
| Items.DeriveId | monitor_throne.py:328 | item id precedence: a truthy explicit id, else sha1(url) for a non-empty url, else sha1(name + url); a non-string url or name raises; it succeeds for a truthy id, a non-empty string url, or string name and url |
| Items.ExplicitIdDecides | monitor_throne.py:114-116 | with a truthy explicit id, name and url do not affect the id |
| Items.MapAll | monitor_throne.py:321-350 | the normalisation loop succeeds iff every record does, and then yields one record per input, in order |
| Items.MapAllFailsFromPrefix | monitor_throne.py:322 | the first failing record decides the fault, whatever follows it |
| Items.FlatMapAll | monitor_throne.py:84-123 | the JSON-LD loops succeed iff every element does, and every output record comes from some element |
| Items.FlatMapAllSnoc | monitor_throne.py:84-123 | one more element extends the output by exactly what that element yields, so the output is the in-order concatenation; a failing element makes the whole loop fail with its fault |
| Items.FlatMapAllFailsFromPrefix | monitor_throne.py:87 | the first failing element decides the fault, whatever follows it |
| Items.DictOfHoldsLast | monitor_throne.py:125-127 | the dict maps exactly the candidates' ids, each to the last candidate with that id |
| Items.OrderOfKeys | monitor_throne.py:125-128 | the dict's insertion order holds exactly the candidates' ids |
| Items.OrderOfSorted | monitor_throne.py:125-128 | the insertion order is strictly increasing in first occurrence |
| Items.OrderOfByFirstOccurrence | monitor_throne.py:125-128 | every id once, in the order the ids first occur |
| Items.FillDict | monitor_throne.py:401-403 | the loop `uniq[c["item_id"]] = c` builds that dict and insertion order |
| Items.Dedup | monitor_throne.py:401-404 | `list(uniq.values())` has distinct ids, the same id set as the candidates, the last candidate per id, ordered by first occurrence |
| NextData.Qualifies | monitor_throne.py:306-308 | a qualifying node is a dict whose `items` is a non-empty list |
| NextData.QualifyingLists | monitor_throne.py:306-308 | every qualifying `items` list is non-empty |
| NextData.DeepIter | monitor_throne.py:303-316 | the walk leaves `items` at the last qualifying list in pre-order, or unchanged when none qualifies |
| NextData.LaterQualifyingListWins | monitor_throne.py:306-311 | exhibits one document with two qualifying lists where the walk keeps the later one, not the first |
| NextData.RecordPrice | monitor_throne.py:332-339 | an `int` price is cents as-is, a `bool` one counts as 1 or 0; a missing price, list or dict is unknown (-1) |
| NextData.CleanPriceTextIdempotent | monitor_throne.py:337 | removing `$` and stripping a price text that was already cleaned changes nothing |
| NextData.RecordPriceOfString | monitor_throne.py:336-339 | a string price is the parse of its `$`-free, stripped text, unknown (-1) when the parse fails |
| NextData.RecordPriceCleansText | monitor_throne.py:336-339 | a string price reads the same as its `$`-free, stripped text, so `"$12.50 "` and `"12.50"` give the same cents |
| NextData.RecordPriceCleanText | monitor_throne.py:336-339 | a price string with no `$` and no surrounding white space goes to the parse unchanged |
| NextData.RecordPriceReadsText | monitor_throne.py:336-337 | a float price is read through its `str()` text, as a string price with that text |
| NextData.NormalizeRecord | monitor_throne.py:322-349 | a non-dict record raises; on success the id is derived from `id or uuid`, name and url; the name is stripped; the price comes from the `price`/`price_cents`/`priceCents` chain; currency (`currency`/`currencyCode`/`USD`), product URL (`url`/`productUrl`/`url_path`/empty) and image (`image`/`imageUrl`/empty) are their chains' values; availability follows `available`; success needs the three chains to give strings, and a dict whose chains give strings succeeds when it has a truthy id, a non-empty URL or a string name |
| NextData.Availability | monitor_throne.py:329-348 | the stored flag is 0 or 1, and 0 exactly when `available` is present, not null, and falsy |
| NextData.RecordIdPrecedence | monitor_throne.py:328-342 | an explicit id wins; else sha1 of a non-empty URL; else sha1 of name and URL |
| NextData.ZeroPriceReadsUnknown | monitor_throne.py:324 | a record whose only price is `"price": 0` is stored with the unknown sentinel |
| NextData.NormalizeRecords | monitor_throne.py:321-350 | the normalisation loop computes the normalised list or the first fault |
| NextData.ExtractNextData | monitor_throne.py:316-350 | None without data or without a qualifying list; otherwise the normalised records of the last qualifying list, or the first record's fault |
| JsonLd.OfferFrom | monitor_throne.py:97-104 | a null price stays unknown and any other price is the parse of `str(price)`, unknown when it fails; the currency is `priceCurrency` when truthy, else `USD` |
| JsonLd.OfferTerms | monitor_throne.py:94-113 | a dict offer is read directly; a non-empty list through its first element, which raises when it is no dict; anything else gives an unknown price in `USD` |
| JsonLd.OnlyFirstOfferCounts | monitor_throne.py:105-108 | offers after the first never matter, and a one-dict list reads as that dict |
| JsonLd.NodeRecord | monitor_throne.py:91-123 | a listed node gives a record exactly when it is readable; the record has the `@id` id precedence, the stripped name, the offer's price and currency, the url, the image and `available = 1` |
| JsonLd.ElementItem | monitor_throne.py:88-123 | an entry is skipped exactly when it does not wrap a dict; it gives a record exactly when the wrapped dict is readable, and that record is the node's record |
| JsonLd.UnwrappedEntrySkipped | monitor_throne.py:88-90 | an entry without an `"item"` key yields nothing |
| JsonLd.ElementItems | monitor_throne.py:88-123 | every record an entry yields is available with a non-empty currency |
| JsonLd.NodeItems | monitor_throne.py:84-86 | a non-dict node raises; a node that is not an `ItemList` with a list `itemListElement` yields nothing |
| JsonLd.BlockItems | monitor_throne.py:77-86 | a block that did not decode yields nothing; a decoded block succeeds exactly when each of its nodes does |
| JsonLd.Candidates | monitor_throne.py:77-123 | all blocks together succeed exactly when each block does |
| JsonLd.CollectEntries | monitor_throne.py:87-123 | the entry loop yields the records of the entries in order, or the first fault |
| JsonLd.CollectBlock | monitor_throne.py:83-123 | the node loop of one block yields its nodes' records in order, or the first fault |
| JsonLd.ExtractJsonLd | monitor_throne.py:74-128 | a fault of any block propagates; otherwise distinct ids, the candidates' id set, the last candidate per id, ordered by first occurrence, all available with a currency |
| Pipeline.Select | monitor_throne.py:417-425 | `__NEXT_DATA__` when non-None and non-empty, else JSON-LD when non-empty, else the HTML result; faults of extractors that ran propagate; results never merge |
| Pipeline.LaterExtractorsIgnored | monitor_throne.py:417-421 | once `__NEXT_DATA__` yields records, the JSON-LD and HTML results cannot change the outcome |
| Pipeline.ItemsForTarget | monitor_throne.py:414-443 | the URL is the target itself when it is http(s), else the handle URL; the items are the `__NEXT_DATA__` records when usable, else the JSON-LD records when non-empty, else the HTML records; every returned record comes from the extractor chosen; a `__NEXT_DATA__` fault propagates, and so does a JSON-LD fault when JSON-LD runs |
| Reconcile.Snapshot | monitor_throne.py:452-453 | the prior snapshot holds exactly this wishlist's rows, with their names and prices |
| Reconcile.UpsertRowEffect | monitor_throne.py:461-473 | one upsert adds at most the record's key, keeps `first_seen` of an existing row (else `ts`), sets `last_seen` and the record's columns, and leaves every other row alone |
| Reconcile.ItemEventsKind | monitor_throne.py:475-485 | a record causes at most one event: `added` exactly when its id is new, `price_change` exactly when its known price moved; the event carries its id and its price as to-price |
| Reconcile.ItemEventsByKind | monitor_throne.py:475-485 | one record's events, read kind by kind, are its addition and its price change; it never logs a removal |
| Reconcile.AddedItemsExactly | monitor_throne.py:475-476 | each occurrence of a record whose id is not in the snapshot is reported added, and no other record is |
| Reconcile.PriceChangesExactly | monitor_throne.py:479-483 | a price change is reported exactly for a snapshot id whose old and new prices differ and are both known (>= 0) |
| Reconcile.LoopEventsCount | monitor_throne.py:475-485 | the item loop logs one event per addition and per price change; added events carry no from-price and a to-price, price changes carry the snapshot price |
| Reconcile.LoopEventsByKind | monitor_throne.py:475-485 | the item loop's `added` events are one per added record, in order, and its `price_change` events one per price change; it logs no removal |
| Reconcile.RemovalEvents | monitor_throne.py:491-492 | one `removed` event per removal, with null prices |
| Reconcile.RemovalEventsOfKind | monitor_throne.py:487-492 | the removal loop logs only `removed` events |
| Reconcile.CallEventsByKind | monitor_throne.py:475-492 | the events of one call, kind by kind: one `added` per addition, one `price_change` per price change, one `removed` per removal, each in order |
| Reconcile.RemovalsForCover | monitor_throne.py:487-490 | listing each removed id once in any order covers `set(prev) - current_ids` |
| Reconcile.Enumerate | monitor_throne.py:488 | iterating a set visits each element once |
| Reconcile.UpsertAllRows | monitor_throne.py:461-473 | every listed id's row holds its last record, `last_seen = ts` and the old `first_seen` (or `ts` when new); other rows are unchanged; nothing is deleted |
| Reconcile.UpsertAllListed | monitor_throne.py:461-473 | each listed id's row after the upsert loop |
| Reconcile.UpsertAllKeeps | monitor_throne.py:461-473 | rows of other wishlists and unlisted ids are untouched |
| Reconcile.UpsertAllNoExtra | monitor_throne.py:461-473 | the upsert loop only adds rows for listed ids of this wishlist |
| Reconcile.SnapshotAfterUpsert | monitor_throne.py:452-473 | the next snapshot holds the old ids plus the listed ones, each at its last listed price |
| Reconcile.OtherWishlistUnchanged | monitor_throne.py:452 | another wishlist's snapshot is unaffected |
| Reconcile.RemovalIsSticky | monitor_throne.py:487 | an id removed once is reported removed again while absent, and is not reported added when it returns |
| Reconcile.NoneAdded | monitor_throne.py:475 | when every listed id is in the snapshot, nothing is added |
| Reconcile.NoneChanged | monitor_throne.py:482 | when every listed id is in the snapshot at its listed price, no price changes |
| Reconcile.StoreTwiceAddsNothing | monitor_throne.py:452-478 | reconciling the same list again reports nothing added |
| Reconcile.StoreTwiceChangesNoPrice | monitor_throne.py:452-485 | reconciling the same list (distinct ids) again reports no price change |
| Reconcile.Store.constructor | monitor_throne.py:254-283 | a fresh database has both tables empty |
| Reconcile.Store.DiffAndStore | monitor_throne.py:448-496 | returns the added, price-changed and removed lists of the specification; the table becomes the upserted table; the log grows by one row per addition, price change and removal, and read kind by kind its `added` rows match the added list, its `price_change` rows the price changes and its `removed` rows the removals, in order |
| Reconcile.Store.StoreItems | monitor_throne.py:458-485 | the item loop against the fixed snapshot: added, price changes, current ids, table and log |
| Reconcile.Store.StoreItem | monitor_throne.py:459-485 | one record: its upsert and its `added` or `price_change` event |
| Reconcile.Store.Upsert | monitor_throne.py:461-473 | `INSERT ... ON CONFLICT DO UPDATE` keeps `first_seen` and replaces the other columns |
| Reconcile.Store.Log | monitor_throne.py:477-478 | an `INSERT INTO events` appends one row and leaves the table alone |
| Reconcile.Store.LogRemoval | monitor_throne.py:489-492 | one removal entry with the snapshot name and its `removed` event |
| Reconcile.Store.LogRemovals | monitor_throne.py:487-492 | the removal loop lists each removed id once with its name and logs one event each, in the loop's order |
| Reconcile.Store.LogInOrder | monitor_throne.py:488-492 | for a fixed iteration order, entries and events follow that order |
| Summary.Symbol | monitor_throne.py:501 | USD gives `$`, EUR `€`, GBP `£`, and every other code no symbol |
| Summary.Amount | monitor_throne.py:502 | `cents/100:.2f` is digits, a point and two digits |
| Summary.AmountRoundTrip | monitor_throne.py:502 | reading the amount back gives the cents |
| Summary.CentsToStr | monitor_throne.py:498-502 | `unknown` exactly for a negative price; `$`, `€`, `£` prefix the amount, any other currency code follows it |
| Summary.CentsToStrShowsAmount | monitor_throne.py:502 | the rendered amount reads back as the cents |
| Summary.AddedLineShape | monitor_throne.py:536-537 | an added record's bullet is the mark and its name, and ends with its product URL |
| Summary.RemovedLineShape | monitor_throne.py:540-541 | a removal's bullet is the mark followed by the stored name and nothing else |
| Summary.PriceLineShape | monitor_throne.py:544-545 | a price change's bullet is the mark and the name, and ends with the new price |
| Summary.SummaryLines | monitor_throne.py:532-545 | the first line is `Wishlist: <id>`, and with no changes it is the only line |
| Summary.TitlePositions | monitor_throne.py:533-545 | each section title stands only at its section's head, and exactly when its list is non-empty |
| Summary.SummaryLayout | monitor_throne.py:532-546 | header first; a title present iff its list is non-empty; sections in the order Added, Removed, Price changes; the line count |
| Summary.AddedListed | monitor_throne.py:536-537 | every added record has its bullet |
| Summary.RemovedListed | monitor_throne.py:540-541 | every removal has its bullet |
| Summary.PriceChangeListed | monitor_throne.py:544-545 | every price change has its bullet |
| Summary.Join | monitor_throne.py:546 | joining no lines gives the empty text; otherwise the text is as long as all lines plus one separator fewer than there are lines, and starts with the first line |
| Summary.JoinLineAt | monitor_throne.py:546 | line k stands in the joined text at the total width of the lines before it |
| Summary.JoinSepAt | monitor_throne.py:546 | each line but the last is followed by the separator |
| Summary.JoinLayout | monitor_throne.py:546 | line k and, unless it is the last, the separator after it |
| Summary.Summarize | monitor_throne.py:532-546 | the message starts with `Wishlist: <id>` and is as long as its lines plus one newline fewer than there are lines |
| Summary.MessageLayout | monitor_throne.py:532-546 | summary line k stands at its offset in the message, followed by a newline unless it is the last |
| Summary.LineInMessage | monitor_throne.py:532-546 | every summary line occurs in the message |
| Summary.BulletsInMessage | monitor_throne.py:534-546 | every added, removed and price-change bullet occurs in the message itself |

## Left out


- Fetching (`fetch` with tenacity retry) and the HTTP session and proxy setup: network I/O. The extractor results are inputs to `Pipeline.Select`.
- `send_email`: SMTP I/O.
- `ensure_db`, SQLite connections and commit: the tables are the in-memory fields of `Reconcile.Store`.
- Logging, environment configuration and the debug HTML dumps, including the second filename substitution at monitor_throne.py:431: I/O and process globals.
- `jitter_sleep`, `run_once`, `run_daemon` and `now_utc_iso`: randomness, sleeping, the clock and the top-level loop. `ts` is a parameter.
- Locating `<script>` tags with BeautifulSoup and `json.loads`: both extractors receive the decoded JSON, or None when there is none.
- The DOM and regex scan of `extract_items_html` and the unused `extract_items_grid`: an HTML parser. The HTML result is an input. Only its de-duplication loop (`Items.Dedup`) is modelled.
- The first `extract_items_jsonld` (monitor_throne.py:24-72): dead code, redefined at line 74.
- Float price parsing and sha1: opaque functions in `Items.Oracles`. A parse failure is `None`, stored as -1. `Items.DeriveId` assumes sha1 digests are non-empty.
- `str()` of floats, lists and dicts: given by the `repr` oracle.
- NextData.NormalizeRecord: a currency, product URL or image that is not a string gives `Fault.Unrepresentable` when the record is normalised. In Python such a value reaches `conn.execute`, where sqlite3 binds ints, floats and booleans and raises on lists and dicts. The model does not say which, and it faults even when the record never reaches the database.
- JsonLd.NodeRecord: the same rule for a non-string currency, URL or image. The model faults at extraction, so a record that a later record with the same `@id` would replace during de-duplication still faults, where Python drops it before it is stored.
- Reconcile.Store.Upsert: prices are unbounded integers. sqlite3 raises `OverflowError` when binding an `int` price of 2^63 or more, and the model does not.
- Json.Get: returns the first member with a key. Decoded JSON objects have distinct keys, so the first and the last member agree.
- Summary.CentsToStr: `cents/100:.2f` is modelled with exact integer division. Python divides in double precision, so very large amounts can print different digits. The first such amount lies near 7.3·10^15 cents, just under 2^53.
- Reconcile.Store.LogRemovals: the order of `removed` is that of `Reconcile.Enumerate`, which is unspecified, as for a Python set. Its contract therefore holds for every order.
- Reconcile.Snapshot: a stored price is an integer. The script never writes NULL prices, so the `before is not None` guard always holds.
