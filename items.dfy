/**
 * The normalised item record every extractor produces, the identity rule the
 * extractors share, and the last-wins de-duplication of `extract_items_jsonld`
 * and `extract_items_html`.
 */
module Items {
  import opened Wrappers
  import opened Json

  /** The price sentinel for "no parseable price"; zero is a real price. */
  const UnknownPrice: int := -1

  /** One wishlist entry as stored in the `items` table (less the wishlist and timestamps). */
  datatype Item = Item(
    itemId: string,
    name: string,
    priceCents: int,
    currency: string,
    productUrl: string,
    imageUrl: string,
    available: int)

  /**
   * Why an extractor gives no list. `Raised`: the source raises (a `.get` on a
   * non-dict, `.encode()` or `+` on a non-string). `Unrepresentable`: a field
   * the source stores as text holds a JSON value that is not a string.
   */
  datatype Fault = Raised | Unrepresentable

  /**
   * The computations the model takes as given: `sha1(s.encode()).hexdigest()`,
   * the price parse `int(round(float(s) * 100))` (None where it raises), and
   * Python's `str()` of floats, lists and dicts.
   */
  datatype Oracles = Oracles(sha1: string -> string, cents: string -> Option<int>, repr: Json -> string)

  /** What SHA-1 hex digests look like: forty characters, never empty. */
  ghost predicate HexDigests(o: Oracles)
  {
    forall s :: |o.sha1(s)| == 40
  }

  /** `int(round(float(...) * 100))` as the oracle gives it, with the sentinel where it raises. */
  function ParsedOrUnknown(cents: Option<int>): int
  {
    if cents.Some? then cents.value else UnknownPrice
  }

  function NameUrlHash(o: Oracles, name: Json, url: Json): Result<string, Fault>
  {
    if name.JStr? && url.JStr? then Ok(o.sha1(name.s + url.s)) else Err(Raised)
  }

  /**
   * `explicit or (url and sha1(url))`, then `str(id) if id else sha1(name + url)`:
   * an explicit id wins, then the hash of the URL, then the hash of name and URL.
   */
  function DeriveId(o: Oracles, explicit: Json, name: Json, url: Json): (r: Result<string, Fault>)
    ensures Truthy(explicit) ==> r == Ok(Str(o.repr, explicit))
    ensures !Truthy(explicit) && url.JStr? && url.s != [] && HexDigests(o) ==> r == Ok(o.sha1(url.s))
    ensures !Truthy(explicit) && url == JStr([]) && name.JStr? ==> r == Ok(o.sha1(name.s))
    ensures !Truthy(explicit) && url == JStr([]) && !name.JStr? ==> r == Err(Raised)
    ensures !Truthy(explicit) && Truthy(url) && !url.JStr? ==> r == Err(Raised)
    ensures r.Err? ==> r.error == Raised
    ensures Truthy(explicit) || (Truthy(url) && url.JStr? && HexDigests(o)) || (name.JStr? && url.JStr?) ==> r.Ok?
  {
    if Truthy(explicit) then Ok(Str(o.repr, explicit))
    else if Truthy(url) then
      if !url.JStr? then Err(Raised)
      else
        var h := o.sha1(url.s);
        if h != [] then Ok(h) else NameUrlHash(o, name, url)
    else
      assert url == JStr([]) ==> name.JStr? ==> name.s + url.s == name.s;
      NameUrlHash(o, name, url)
  }

  /** An explicit id decides the item id whatever the name and URL are. */
  lemma ExplicitIdDecides(o: Oracles, explicit: Json, name1: Json, url1: Json, name2: Json, url2: Json)
    requires Truthy(explicit)
    ensures DeriveId(o, explicit, name1, url1) == DeriveId(o, explicit, name2, url2)
  {
  }

  /** The key the de-duplication dicts use: `c["item_id"]`. */
  function ItemKey(it: Item): string
  {
    it.itemId
  }

  /*
   * The de-duplication is stated for any record type and key so that the
   * solver treats records as opaque values; it is used with `ItemKey`.
   */

  function KeySet<T(==)>(s: seq<T>, key: T -> string): set<string>
  {
    set x | x in s :: key(x)
  }

  /** The position of the first record with key `id`. */
  function FirstIndex<T(==)>(s: seq<T>, key: T -> string, id: string): (k: nat)
    requires id in KeySet(s, key)
    ensures k < |s| && key(s[k]) == id
    ensures forall q :: 0 <= q < k ==> key(s[q]) != id
  {
    if key(s[0]) == id then 0
    else
      assert id in KeySet(s[1..], key) by {
        var x :| x in s && key(x) == id;
        var q :| 0 <= q < |s| && s[q] == x;
        assert s[1..][q - 1] == x;
      }
      1 + FirstIndex(s[1..], key, id)
  }

  /** The position of the last record with key `id`. */
  function LastIndex<T(==)>(s: seq<T>, key: T -> string, id: string): (k: nat)
    requires id in KeySet(s, key)
    ensures k < |s| && key(s[k]) == id
    ensures forall q :: k < q < |s| ==> key(s[q]) != id
  {
    var n := |s| - 1;
    if key(s[n]) == id then n
    else
      assert id in KeySet(s[..n], key) by {
        var x :| x in s && key(x) == id;
        var q :| 0 <= q < |s| && s[q] == x;
        assert s[..n][q] == x;
      }
      LastIndex(s[..n], key, id)
  }

  /**
   * The normalisation loops: `f` applied to each element in order, appending
   * to the output; the first element whose `f` fails stops the loop with its fault.
   */
  function MapAll<A, B>(f: A -> Result<B, Fault>, xs: seq<A>): (r: Result<seq<B>, Fault>)
    ensures r.Ok? <==> forall i :: 0 <= i < |xs| ==> f(xs[i]).Ok?
    ensures r.Ok? ==> |r.value| == |xs| && forall i :: 0 <= i < |xs| ==> r.value[i] == f(xs[i]).value
  {
    if xs == [] then Ok([])
    else
      var init :- MapAll(f, xs[..|xs| - 1]);
      var last :- f(xs[|xs| - 1]);
      Ok(init + [last])
  }

  /** One more element extends the output by that element's record. */
  lemma MapAllSnoc<A, B>(f: A -> Result<B, Fault>, xs: seq<A>, i: nat)
    requires i < |xs| && MapAll(f, xs[..i]).Ok?
    ensures f(xs[i]).Ok? ==> MapAll(f, xs[..i + 1]) == Ok(MapAll(f, xs[..i]).value + [f(xs[i]).value])
    ensures f(xs[i]).Err? ==> MapAll(f, xs) == Err(f(xs[i]).error)
  {
    assert xs[..i + 1][..i] == xs[..i];
    if f(xs[i]).Err? {
      MapAllFailsFromPrefix(f, xs, i + 1);
    }
  }

  /** Once a prefix fails, the whole sequence fails with the same fault. */
  lemma {:induction false} MapAllFailsFromPrefix<A, B>(f: A -> Result<B, Fault>, xs: seq<A>, k: nat)
    requires k <= |xs| && MapAll(f, xs[..k]).Err?
    ensures MapAll(f, xs) == MapAll(f, xs[..k])
    decreases |xs| - k
  {
    if k < |xs| {
      assert xs[..k + 1][..k] == xs[..k];
      MapAllFailsFromPrefix(f, xs, k + 1);
    } else {
      assert xs[..k] == xs;
    }
  }

  /**
   * A loop that appends zero or more records per element: the concatenation,
   * in order, of what each element yields; the first failing element stops it.
   */
  function FlatMapAll<A, B>(f: A -> Result<seq<B>, Fault>, xs: seq<A>): (r: Result<seq<B>, Fault>)
    ensures r.Ok? <==> forall i :: 0 <= i < |xs| ==> f(xs[i]).Ok?
    ensures r.Ok? ==> forall y :: y in r.value ==> exists i :: 0 <= i < |xs| && f(xs[i]).Ok? && y in f(xs[i]).value
  {
    if xs == [] then Ok([])
    else
      var init :- FlatMapAll(f, xs[..|xs| - 1]);
      var last :- f(xs[|xs| - 1]);
      Ok(init + last)
  }

  /** One more element extends the output by what that element yields. */
  lemma FlatMapAllSnoc<A, B>(f: A -> Result<seq<B>, Fault>, xs: seq<A>, i: nat)
    requires i < |xs| && FlatMapAll(f, xs[..i]).Ok?
    ensures f(xs[i]).Ok? ==> FlatMapAll(f, xs[..i + 1]) == Ok(FlatMapAll(f, xs[..i]).value + f(xs[i]).value)
    ensures f(xs[i]).Err? ==> FlatMapAll(f, xs) == Err(f(xs[i]).error)
  {
    assert xs[..i + 1][..i] == xs[..i];
    if f(xs[i]).Err? {
      FlatMapAllFailsFromPrefix(f, xs, i + 1);
    }
  }

  /** Once a prefix fails, the whole sequence fails with the same fault. */
  lemma {:induction false} FlatMapAllFailsFromPrefix<A, B>(f: A -> Result<seq<B>, Fault>, xs: seq<A>, k: nat)
    requires k <= |xs| && FlatMapAll(f, xs[..k]).Err?
    ensures FlatMapAll(f, xs) == FlatMapAll(f, xs[..k])
    decreases |xs| - k
  {
    if k < |xs| {
      assert xs[..k + 1][..k] == xs[..k];
      FlatMapAllFailsFromPrefix(f, xs, k + 1);
    } else {
      assert xs[..k] == xs;
    }
  }

  /** Keys distinct: the shape of `list(uniq.values())`. */
  predicate DistinctKeys<T(==)>(r: seq<T>, key: T -> string)
  {
    forall i, j :: 0 <= i < j < |r| ==> key(r[i]) != key(r[j])
  }

  lemma KeySetSnoc<T>(s: seq<T>, c: T, key: T -> string)
    ensures KeySet(s + [c], key) == KeySet(s, key) + {key(c)}
  {
    forall id | id in KeySet(s, key)
      ensures id in KeySet(s + [c], key)
    {
      var x :| x in s && key(x) == id;
      assert x in s + [c];
    }
    assert c in s + [c];
  }

  /** Appending a record with a new key keeps the keys distinct. */
  lemma DistinctKeysSnoc<T>(s: seq<T>, c: T, key: T -> string)
    requires DistinctKeys(s, key) && key(c) !in KeySet(s, key)
    ensures DistinctKeys(s + [c], key)
  {
    forall i | 0 <= i < |s|
      ensures key(s[i]) != key(c)
    {
      assert s[i] in s;
    }
  }

  /** The dict `uniq` after the assignments `uniq[key(c)] = c` for the records of `s`, in order. */
  function DictOf<T(==)>(s: seq<T>, key: T -> string): map<string, T>
  {
    if s == [] then map[] else DictOf(s[..|s| - 1], key)[key(s[|s| - 1]) := s[|s| - 1]]
  }

  /** The keys of `uniq` in insertion order: a key joins when it is first assigned. */
  function OrderOf<T(==)>(s: seq<T>, key: T -> string): seq<string>
  {
    if s == [] then []
    else
      var p, c := s[..|s| - 1], s[|s| - 1];
      if key(c) in KeySet(p, key) then OrderOf(p, key) else OrderOf(p, key) + [key(c)]
  }

  /** The dict maps every key of `s`, and nothing else, to the last record of `s` with that key. */
  lemma {:induction false} DictOfHoldsLast<T>(s: seq<T>, key: T -> string)
    ensures DictOf(s, key).Keys == KeySet(s, key)
    ensures forall id :: id in KeySet(s, key) ==> DictOf(s, key)[id] == s[LastIndex(s, key, id)]
  {
    if s != [] {
      var p, c := s[..|s| - 1], s[|s| - 1];
      assert s == p + [c];
      DictOfHoldsLast(p, key);
      KeySetSnoc(p, c, key);
      forall id | id in KeySet(s, key)
        ensures DictOf(s, key)[id] == s[LastIndex(s, key, id)]
      {
        if id != key(c) {
          var k := LastIndex(p, key, id);
          assert s[k] == p[k];
        }
      }
    }
  }

  /** Appending a record with another key does not move the last occurrence of a key. */
  lemma LastIndexSnoc<T>(p: seq<T>, c: T, key: T -> string, id: string)
    requires id in KeySet(p + [c], key) && id != key(c)
    ensures id in KeySet(p, key) && LastIndex(p + [c], key, id) == LastIndex(p, key, id)
  {
    KeySetSnoc(p, c, key);
    assert (p + [c])[..|p|] == p;
  }

  /** Appending a record does not move the first occurrence of a key already present. */
  lemma FirstIndexSnoc<T>(p: seq<T>, c: T, key: T -> string, id: string)
    requires id in KeySet(p, key)
    ensures id in KeySet(p + [c], key) && FirstIndex(p + [c], key, id) == FirstIndex(p, key, id)
  {
    KeySetSnoc(p, c, key);
    var k := FirstIndex(p, key, id);
    assert (p + [c])[k] == p[k];
  }

  /** The insertion order holds exactly the keys of `s`. */
  lemma {:induction false} OrderOfKeys<T>(s: seq<T>, key: T -> string)
    ensures forall id :: id in OrderOf(s, key) <==> id in KeySet(s, key)
  {
    if s != [] {
      var p, c := s[..|s| - 1], s[|s| - 1];
      assert s == p + [c];
      OrderOfKeys(p, key);
      KeySetSnoc(p, c, key);
    }
  }

  /** A key that occurs only in the last record first occurs at the last index. */
  lemma FirstIndexOfNewKey<T>(p: seq<T>, c: T, key: T -> string)
    requires key(c) !in KeySet(p, key)
    ensures key(c) in KeySet(p + [c], key) && FirstIndex(p + [c], key, key(c)) == |p|
  {
    KeySetSnoc(p, c, key);
    var s := p + [c];
    forall q | 0 <= q < |p|
      ensures key(s[q]) != key(c)
    {
      assert s[q] == p[q] && p[q] in p;
    }
  }

  /** The insertion order is strictly increasing in first occurrence. */
  lemma {:induction false} OrderOfSorted<T>(s: seq<T>, key: T -> string)
    ensures forall i, j :: 0 <= i < j < |OrderOf(s, key)| ==>
              OrderOf(s, key)[i] in KeySet(s, key) && OrderOf(s, key)[j] in KeySet(s, key) &&
              FirstIndex(s, key, OrderOf(s, key)[i]) < FirstIndex(s, key, OrderOf(s, key)[j])
  {
    if s != [] {
      var p, c := s[..|s| - 1], s[|s| - 1];
      assert s == p + [c];
      OrderOfSorted(p, key);
      OrderOfKeys(p, key);
      KeySetSnoc(p, c, key);
      var op := OrderOf(p, key);
      var order := OrderOf(s, key);
      if key(c) !in KeySet(p, key) {
        FirstIndexOfNewKey(p, c, key);
        assert order == op + [key(c)];
      } else {
        assert order == op;
      }
      forall i, j | 0 <= i < j < |OrderOf(s, key)|
        ensures OrderOf(s, key)[i] in KeySet(s, key) && OrderOf(s, key)[j] in KeySet(s, key)
        ensures FirstIndex(s, key, OrderOf(s, key)[i]) < FirstIndex(s, key, OrderOf(s, key)[j])
      {
        var x := op[i];
        assert order[i] == x && x in op;
        FirstIndexSnoc(p, c, key, x);
        if j < |op| {
          var y := op[j];
          assert order[j] == y && y in op;
          FirstIndexSnoc(p, c, key, y);
          assert FirstIndex(p, key, x) < FirstIndex(p, key, y);
        } else {
          assert order[j] == key(c);
        }
      }
    } else {
      assert OrderOf(s, key) == [];
    }
  }

  /** The insertion order lists every key of `s` once, ordered by first occurrence. */
  lemma OrderOfByFirstOccurrence<T>(s: seq<T>, key: T -> string)
    ensures var order := OrderOf(s, key);
      && (forall i, j :: 0 <= i < j < |order| ==> order[i] != order[j])
      && (forall id :: id in order <==> id in KeySet(s, key))
      && (forall i, j :: 0 <= i < j < |order| ==>
            order[i] in KeySet(s, key) && order[j] in KeySet(s, key) &&
            FirstIndex(s, key, order[i]) < FirstIndex(s, key, order[j]))
  {
    OrderOfKeys(s, key);
    OrderOfSorted(s, key);
  }

  /** The loop `uniq[key(c)] = c` over `cands`: the dict, and the order in which its keys were inserted. */
  method FillDict<T(==)>(cands: seq<T>, key: T -> string) returns (order: seq<string>, uniq: map<string, T>)
    ensures uniq == DictOf(cands, key) && order == OrderOf(cands, key)
  {
    order, uniq := [], map[];
    for n := 0 to |cands|
      invariant uniq == DictOf(cands[..n], key)
      invariant order == OrderOf(cands[..n], key)
    {
      var c := cands[n];
      assert cands[..n + 1][..n] == cands[..n];
      DictOfHoldsLast(cands[..n], key);
      if key(c) !in uniq {
        order := order + [key(c)];
      }
      uniq := uniq[key(c) := c];
    }
    assert cands[..|cands|] == cands;
  }

  /**
   * The de-duplication loop `uniq[c["item_id"]] = c` followed by `list(uniq.values())`:
   * one record per key, the last one with that key, in the order in which the keys first occur.
   */
  method Dedup<T(==)>(cands: seq<T>, key: T -> string) returns (r: seq<T>)
    ensures DistinctKeys(r, key)
    ensures KeySet(r, key) == KeySet(cands, key)
    ensures forall i :: 0 <= i < |r| ==> key(r[i]) in KeySet(cands, key) && r[i] == cands[LastIndex(cands, key, key(r[i]))]
    ensures forall i, j :: 0 <= i < j < |r| ==>
              key(r[i]) in KeySet(cands, key) && key(r[j]) in KeySet(cands, key) &&
              FirstIndex(cands, key, key(r[i])) < FirstIndex(cands, key, key(r[j]))
  {
    var order, uniq := FillDict(cands, key);
    DictOfHoldsLast(cands, key);
    OrderOfByFirstOccurrence(cands, key);
    r := seq(|order|, i requires 0 <= i < |order| => uniq[order[i]]);
    assert forall i :: 0 <= i < |r| ==> key(r[i]) == order[i];
    forall id | id in KeySet(cands, key)
      ensures id in KeySet(r, key)
    {
      var i :| 0 <= i < |order| && order[i] == id;
      assert r[i] in r;
    }
  }
}
