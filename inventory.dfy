/**
 * `fetch_all_inventory` of src-tauri/src/scraper/inventory.rs, and the
 * scraper's shared types from src-tauri/src/scraper/types.rs. The Discogs
 * client is an oracle: a function from a page number to the page it answers
 * (the seller and the fixed page size of 100 are folded into it).
 */
module Inventory {
  import opened Maybe

  /** Rust `u32`: page numbers, page counts and the limit. */
  type U32 = x: int | 0 <= x < 0x1_0000_0000

  /** `ScraperError`; the wrapped library errors keep only their kind. */
  datatype ScraperError =
    | MissingToken
    | HttpError
    | RateLimitExceeded
    | NotFound
    | DatabaseError(message: string)
    | JsonError
    | UrlError
    | Cancelled

  /** `Result<T, ScraperError>`. */
  datatype Result<T> = Ok(value: T) | Err(error: ScraperError)

  /** One inventory page: the pagination totals and each listing's release id, in order. */
  datatype InventoryPage = InventoryPage(items: U32, pages: U32, releaseIds: seq<nat>)

  /** The client's `get_inventory` for the seller, as a function of the page number. */
  type PageOracle = U32 -> Result<InventoryPage>

  /** The ids a page contributes; a failed page contributes none. */
  function PageIds(fetch: PageOracle, page: U32): seq<nat> {
    if fetch(page).Ok? then fetch(page).value.releaseIds else []
  }

  /** The ids of pages 1 to `p`, in page order. */
  function Collected(fetch: PageOracle, p: U32): (r: seq<nat>)
    ensures p == 0 ==> r == []
    decreases p
  {
    if p == 0 then [] else Collected(fetch, p - 1) + PageIds(fetch, p)
  }

  /** The limit reached by `n` ids. */
  predicate LimitReached(limit: Option<U32>, n: nat) {
    limit.Some? && n >= limit.value
  }

  /** `truncate(max_items)` once the limit is reached, else the ids as they are. */
  function Truncated(ids: seq<nat>, limit: Option<U32>): (r: seq<nat>)
    ensures r <= ids
    ensures limit.Some? ==> |r| <= limit.value
    ensures limit.None? ==> r == ids
  {
    if LimitReached(limit, |ids|) then ids[..limit.value] else ids
  }

  /** The loop stops after page `p`: it answered and either the limit or the last page is reached. */
  predicate StopsAt(fetch: PageOracle, limit: Option<U32>, p: U32) {
    fetch(p).Ok? && (LimitReached(limit, |Collected(fetch, p)|) || p >= fetch(p).value.pages)
  }

  /** The loop has gone past pages 1 to `p - 1`: each answered and none was a stopping point. */
  predicate ContinuedBefore(fetch: PageOracle, limit: Option<U32>, p: U32) {
    forall q: U32 :: 1 <= q < p ==> fetch(q).Ok? && !StopsAt(fetch, limit, q)
  }

  /** The rest of the loop from `page` on, with `acc` the ids gathered before it. */
  function FetchFrom(fetch: PageOracle, limit: Option<U32>, page: U32, acc: seq<nat>): Result<seq<nat>>
    requires page >= 1
    decreases 0x1_0000_0000 - page
  {
    match fetch(page)
    case Err(e) => Err(e)
    case Ok(response) =>
      var ids := acc + response.releaseIds;
      if LimitReached(limit, |ids|) then Ok(ids[..limit.value])
      else if page >= response.pages then Ok(ids)
      else FetchFrom(fetch, limit, page + 1, ids)
  }

  /** What `fetch_all_inventory` returns. */
  function FetchAll(fetch: PageOracle, limit: Option<U32>): Result<seq<nat>> {
    FetchFrom(fetch, limit, 1, [])
  }

  /** `fetch_all_inventory`: requests pages 1, 2, ... until the limit or the last page, failing on the first error. */
  method FetchAllInventory(fetch: PageOracle, limit: Option<U32>) returns (r: Result<seq<nat>>)
    ensures r == FetchAll(fetch, limit)
  {
    var releaseIds: seq<nat> := [];
    var page: U32 := 1;
    while true
      invariant page >= 1
      invariant FetchFrom(fetch, limit, page, releaseIds) == FetchAll(fetch, limit)
      decreases 0x1_0000_0000 - page
    {
      var response := fetch(page);
      if response.Err? {
        return Err(response.error);
      }
      var listings := response.value.releaseIds;
      var i := 0;
      var before := releaseIds;
      while i < |listings|
        invariant 0 <= i <= |listings|
        invariant releaseIds == before + listings[..i]
      {
        releaseIds := releaseIds + [listings[i]];
        i := i + 1;
      }
      assert listings[..i] == listings;
      if limit.Some? && |releaseIds| >= limit.value {
        releaseIds := releaseIds[..limit.value];
        break;
      }
      if page >= response.value.pages {
        break;
      }
      page := page + 1;
    }
    return Ok(releaseIds);
  }

  /** From a page the loop reaches, success means a later stopping page whose collected ids are returned. */
  lemma {:induction false} FetchFromOk(fetch: PageOracle, limit: Option<U32>, page: U32, ids: seq<nat>)
    returns (p: U32)
    requires page >= 1 && ContinuedBefore(fetch, limit, page)
    requires FetchFrom(fetch, limit, page, Collected(fetch, page - 1)) == Ok(ids)
    ensures page <= p && ContinuedBefore(fetch, limit, p) && StopsAt(fetch, limit, p)
    ensures ids == Truncated(Collected(fetch, p), limit)
    decreases 0x1_0000_0000 - page
  {
    var response := fetch(page).value;
    assert Collected(fetch, page) == Collected(fetch, page - 1) + response.releaseIds;
    if StopsAt(fetch, limit, page) {
      p := page;
    } else {
      assert ContinuedBefore(fetch, limit, page + 1);
      p := FetchFromOk(fetch, limit, page + 1, ids);
    }
  }

  /** From a page the loop reaches, failure is the error of a later page, after which nothing is requested. */
  lemma {:induction false} FetchFromErr(fetch: PageOracle, limit: Option<U32>, page: U32, e: ScraperError)
    returns (p: U32)
    requires page >= 1 && ContinuedBefore(fetch, limit, page)
    requires FetchFrom(fetch, limit, page, Collected(fetch, page - 1)) == Err(e)
    ensures page <= p && ContinuedBefore(fetch, limit, p) && fetch(p) == Err(e)
    decreases 0x1_0000_0000 - page
  {
    if fetch(page).Err? {
      p := page;
    } else {
      var response := fetch(page).value;
      assert Collected(fetch, page) == Collected(fetch, page - 1) + response.releaseIds;
      assert !StopsAt(fetch, limit, page);
      assert ContinuedBefore(fetch, limit, page + 1);
      p := FetchFromErr(fetch, limit, page + 1, e);
    }
  }

  /**
   * A successful fetch returns the ids of pages 1 to `p` in page order, cut
   * to the limit, where `p` is the first page at which the limit or the last
   * page is reached.
   */
  lemma FetchAllOk(fetch: PageOracle, limit: Option<U32>, ids: seq<nat>) returns (p: U32)
    requires FetchAll(fetch, limit) == Ok(ids)
    ensures 1 <= p && ContinuedBefore(fetch, limit, p) && StopsAt(fetch, limit, p)
    ensures ids == Truncated(Collected(fetch, p), limit)
  {
    p := FetchFromOk(fetch, limit, 1, ids);
  }

  /** A failed fetch returns the error of the first page that failed; the pages before it all continued. */
  lemma FetchAllErr(fetch: PageOracle, limit: Option<U32>, e: ScraperError) returns (p: U32)
    requires FetchAll(fetch, limit) == Err(e)
    ensures 1 <= p && ContinuedBefore(fetch, limit, p) && fetch(p) == Err(e)
  {
    p := FetchFromErr(fetch, limit, 1, e);
  }

  /** With a limit, never more ids than the limit. */
  lemma LimitBounds(fetch: PageOracle, m: U32, ids: seq<nat>)
    requires FetchAll(fetch, Some(m)) == Ok(ids)
    ensures |ids| <= m
  {
    var p := FetchAllOk(fetch, Some(m), ids);
  }

  /** An error on the first page is the answer, whatever else the pages hold. */
  lemma FirstPageError(fetch: PageOracle, limit: Option<U32>)
    requires fetch(1).Err?
    ensures FetchAll(fetch, limit) == Err(fetch(1).error)
  {
  }

  /** The first page is always requested, even when the reported page count is 0. */
  lemma {:induction false} SinglePageWhenNoneReported(fetch: PageOracle, ids: seq<nat>)
    requires fetch(1) == Ok(InventoryPage(0, 0, ids))
    ensures FetchAll(fetch, None) == Ok(ids)
  {
    assert [] + ids == ids;
  }

  /** Without a limit, a seller whose every page reports `n` pages yields the ids of pages 1 to `n` (at least page 1). */
  lemma {:induction false} FixedPageCount(fetch: PageOracle, n: U32)
    requires forall q: U32 :: fetch(q).Ok? && fetch(q).value.pages == n
    ensures FetchAll(fetch, None) == Ok(Collected(fetch, if n == 0 then 1 else n))
  {
    var last: U32 := if n == 0 then 1 else n;
    FixedPagesFrom(fetch, n, 1);
  }

  lemma {:induction false} FixedPagesFrom(fetch: PageOracle, n: U32, page: U32)
    requires forall q: U32 :: fetch(q).Ok? && fetch(q).value.pages == n
    requires 1 <= page && (page <= n || page == 1)
    ensures FetchFrom(fetch, None, page, Collected(fetch, page - 1)) == Ok(Collected(fetch, if n == 0 then 1 else n))
    decreases 0x1_0000_0000 - page
  {
    assert Collected(fetch, page) == Collected(fetch, page - 1) + fetch(page).value.releaseIds;
    if page < n {
      FixedPagesFrom(fetch, n, page + 1);
    }
  }
}
