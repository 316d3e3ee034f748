/**
 * The integer arithmetic of the two paginated listings: the `page` and
 * `limit` query parameters with their defaults, the skip offset, the page
 * window, and the pagination envelope sent with every page.
 */
module Pagination {
  import opened Wrappers

  const DefaultPage: nat := 1
  const DefaultLimit: nat := 10

  /**
   * `parseInt(raw) || fallback`: `parsed` is the parsed query value, None when the
   * parameter is absent or not numeric (NaN); NaN and 0 are falsy and give the fallback.
   */
  function OrDefault(parsed: Option<nat>, fallback: nat): (v: nat)
    requires fallback >= 1
    ensures v >= 1
    ensures v == fallback <==> parsed.None? || parsed.value == 0 || parsed.value == fallback
    ensures parsed.Some? && parsed.value != 0 ==> v == parsed.value
  {
    match parsed
    case Some(n) => if n != 0 then n else fallback
    case None => fallback
  }

  /** `(page - 1) * limit`: how many items the pages before `page` hold. */
  function Skip(page: nat, limit: nat): nat
    requires page >= 1
  {
    (page - 1) * limit
  }

  /** `Math.ceil(total / limit)`: the least number of pages of `limit` items that hold `total` items. */
  function CeilDiv(total: nat, limit: nat): (pages: nat)
    requires limit >= 1
    ensures (pages - 1) * limit < total <= pages * limit
  {
    if total % limit == 0 then total / limit else total / limit + 1
  }

  function Min(a: nat, b: nat): nat { if a <= b then a else b }

  /** `.skip(skip).limit(limit)` over an ordered result. */
  function Window<T>(s: seq<T>, skip: nat, limit: nat): (w: seq<T>)
    ensures |w| == if skip >= |s| then 0 else Min(limit, |s| - skip)
    ensures forall i :: 0 <= i < |w| ==> w[i] == s[skip + i]
  {
    if skip >= |s| then [] else s[skip..skip + Min(limit, |s| - skip)]
  }

  /** The `pagination` object of a listing response. */
  datatype PageInfo = PageInfo(currentPage: nat, totalPages: nat, totalPosts: nat, hasNext: bool, hasPrev: bool)

  /** Adding `d >= 1` to a factor adds at least `limit` to the product. */
  lemma {:induction false} MulGrows(a: int, d: nat, limit: nat)
    requires d >= 1 && limit >= 1
    ensures a * limit < (a + d) * limit
    decreases d
  {
    assert (a + d) * limit == (a + d - 1) * limit + limit;
    if d > 1 {
      MulGrows(a, d - 1, limit);
    }
  }

  /** Multiplication by a positive limit is strictly monotone. */
  lemma MulMonotone(a: int, b: int, limit: nat)
    requires limit >= 1
    ensures a < b <==> a * limit < b * limit
  {
    if a < b {
      MulGrows(a, b - a, limit);
    } else if b < a {
      MulGrows(b, a - b, limit);
    }
  }

  /** There is a later page exactly when items remain after the current window. */
  lemma {:induction false} NextPageIffItemsRemain(page: nat, limit: nat, total: nat)
    requires limit >= 1
    ensures page < CeilDiv(total, limit) <==> page * limit < total
  {
    var pages := CeilDiv(total, limit);
    MulMonotone(page, pages, limit);
    MulMonotone(pages as int - 1, page, limit);
  }

  /**
   * The envelope: `totalPages = Math.ceil(totalPosts / limit)`, `hasNext =
   * page < totalPages` (so: items remain after this page) and `hasPrev = page > 1`.
   */
  function Envelope(page: nat, limit: nat, total: nat): (info: PageInfo)
    requires page >= 1 && limit >= 1
    ensures info.currentPage == page && info.totalPosts == total
    ensures (info.totalPages - 1) * limit < total <= info.totalPages * limit
    ensures info.hasNext <==> Skip(page, limit) + limit < total
    ensures info.hasPrev <==> Skip(page, limit) > 0
  {
    var pages := CeilDiv(total, limit);
    NextPageIffItemsRemain(page, limit, total);
    assert Skip(page, limit) + limit == page * limit;
    MulMonotone(0, page - 1, limit);
    PageInfo(page, pages, total, page < pages, page > 1)
  }

  /**
   * Every item is listed on exactly one page: item `k` of `total` is at position
   * `k % limit` of page `k / limit + 1`, which is within `totalPages`, and no
   * other page's window contains it.
   */
  lemma {:induction false} EveryItemOnOnePage(total: nat, limit: nat, k: nat)
    requires limit >= 1 && k < total
    ensures var page := k / limit + 1;
      && 1 <= page <= CeilDiv(total, limit)
      && Skip(page, limit) <= k < Skip(page, limit) + limit
      && k - Skip(page, limit) == k % limit
      && forall q: nat :: q >= 1 && Skip(q, limit) <= k < Skip(q, limit) + limit ==> q == page
  {
    var page := k / limit + 1;
    assert Skip(page, limit) == (k / limit) * limit;
    assert k == (k / limit) * limit + k % limit;
    NextPageIffItemsRemain(page - 1, limit, total);
    forall q: nat | q >= 1 && Skip(q, limit) <= k < Skip(q, limit) + limit ensures q == page {
      MulMonotone(q - 1, page, limit);
      MulMonotone(page - 1, q, limit);
      assert Skip(q, limit) + limit == q * limit;
      assert Skip(page, limit) + limit == page * limit;
    }
  }

  /** A page's window is non-empty exactly for the pages 1 to `totalPages`. */
  lemma {:induction false} WindowNonEmptyIffPageInRange<T>(s: seq<T>, page: nat, limit: nat)
    requires page >= 1 && limit >= 1
    ensures |Window(s, Skip(page, limit), limit)| > 0 <==> page <= CeilDiv(|s|, limit)
  {
    NextPageIffItemsRemain(page - 1, limit, |s|);
  }

  /**
   * One page of an ordered result and its envelope, from the raw `page` and
   * `limit` parameters: the window at `(page - 1) * limit` and the envelope over
   * the whole result.
   */
  function Paginate<T>(s: seq<T>, page: Option<nat>, limit: Option<nat>): (r: (seq<T>, PageInfo))
    ensures var pg := OrDefault(page, DefaultPage);
      var lim := OrDefault(limit, DefaultLimit);
      && r.1 == Envelope(pg, lim, |s|)
      && |r.0| == (if Skip(pg, lim) >= |s| then 0 else Min(lim, |s| - Skip(pg, lim)))
      && forall i :: 0 <= i < |r.0| ==> r.0[i] == s[Skip(pg, lim) + i]
  {
    var pg := OrDefault(page, DefaultPage);
    var lim := OrDefault(limit, DefaultLimit);
    (Window(s, Skip(pg, lim), lim), Envelope(pg, lim, |s|))
  }
}
