/**
 * The choice of extractor in `get_items_for_target`
 * (monitor_throne.py:414-443). The three extractor results are inputs; a
 * later extractor only runs when the earlier ones produced nothing, so its
 * fault matters only then. Fetching the page is outside the model.
 */
module Pipeline {
  import opened Wrappers
  import opened Items
  import Target

  /** Whether the `__NEXT_DATA__` result is usable: not None and not empty. */
  predicate NextDataUsable(next: Option<seq<Item>>)
  {
    next.Some? && next.value != []
  }

  /**
   * `__NEXT_DATA__` when it yields records, else JSON-LD when it yields
   * records, else whatever the HTML scan returns; never a merge, never None.
   */
  function Select(next: Result<Option<seq<Item>>, Fault>, jsonLd: Result<seq<Item>, Fault>,
                  html: Result<seq<Item>, Fault>): (r: Result<seq<Item>, Fault>)
    ensures next.Err? ==> r == Err(next.error)
    ensures next.Ok? && NextDataUsable(next.value) ==> r == Ok(next.value.value)
    ensures next.Ok? && !NextDataUsable(next.value) && jsonLd.Err? ==> r == Err(jsonLd.error)
    ensures next.Ok? && !NextDataUsable(next.value) && jsonLd.Ok? && jsonLd.value != [] ==> r == jsonLd
    ensures next.Ok? && !NextDataUsable(next.value) && jsonLd == Ok([]) ==> r == html
    ensures r.Ok? ==> (next.Ok? && next.value == Some(r.value)) || jsonLd == r || html == r
  {
    var n :- next;
    if NextDataUsable(n) then Ok(n.value)
    else
      var j :- jsonLd;
      if j != [] then Ok(j) else html
  }

  /** A result from a later extractor cannot change the outcome once an earlier one yielded records. */
  lemma LaterExtractorsIgnored(next: Result<Option<seq<Item>>, Fault>, jsonLd1: Result<seq<Item>, Fault>,
                               jsonLd2: Result<seq<Item>, Fault>, html1: Result<seq<Item>, Fault>,
                               html2: Result<seq<Item>, Fault>)
    requires next.Ok? && NextDataUsable(next.value)
    ensures Select(next, jsonLd1, html1) == Select(next, jsonLd2, html2) == Ok(next.value.value)
  {
  }

  /**
   * `get_items_for_target`: the wishlist URL (the target itself when it is an
   * http(s) URL, else the handle's wishlist page) and the chosen records.
   */
  function ItemsForTarget(target: string, next: Result<Option<seq<Item>>, Fault>,
                          jsonLd: Result<seq<Item>, Fault>, html: Result<seq<Item>, Fault>)
    : (r: (string, Result<seq<Item>, Fault>))
    ensures Target.IsHttpUrl(r.0)
    ensures Target.IsHttpUrl(target) ==> r.0 == target
    ensures !Target.IsHttpUrl(target) ==> r.0 == Target.HandlePrefix + target + Target.HandleSuffix
    ensures next.Err? ==> r.1 == Err(next.error)
    ensures next.Ok? && NextDataUsable(next.value) ==> r.1 == Ok(next.value.value)
    ensures next.Ok? && !NextDataUsable(next.value) && jsonLd.Err? ==> r.1 == Err(jsonLd.error)
    ensures next.Ok? && !NextDataUsable(next.value) && jsonLd.Ok? && jsonLd.value != [] ==> r.1 == jsonLd
    ensures next.Ok? && !NextDataUsable(next.value) && jsonLd == Ok([]) ==> r.1 == html
    ensures r.1.Ok? ==> (next.Ok? && next.value == Some(r.1.value)) || jsonLd == r.1 || html == r.1
  {
    (Target.NormalizeTarget(target), Select(next, jsonLd, html))
  }
}
