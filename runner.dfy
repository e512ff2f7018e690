/**
 * `ScrapeJob` of src-tauri/src/scraper/runner.rs: the cancellation flag and
 * the two phases of `run`. Phase one walks the seller's inventory pages,
 * records every listing's release id and saves the albums not yet stored;
 * phase two walks the recorded ids in batches and enriches the stored ones.
 *
 * The Discogs client, the database and the other thread that may call
 * `cancel` are oracles held in `Env`: each answers as a function of the
 * call's position (the page number, the listing's index in `release_ids`,
 * or the place of a `check_cancelled` call), so every behaviour of the real
 * services is one choice of `Env`. Events, logging and the pause between
 * batches are left out.
 */
module Runner {
  import opened Maybe
  import opened Inventory

  /** `ScrapeResult`. */
  datatype ScrapeResult = ScrapeResult(albumsAdded: nat, albumsUpdated: nat, totalItems: U32)

  /** The places where `run` calls `check_cancelled`. */
  datatype CheckPoint =
    | BeforePage(page: U32)
    | BeforeListing(index: nat)
    | BeforeBatch(start: nat)
    | BeforeRelease(index: nat)

  /**
   * The services `run` talks to. `listingExists`/`saveOk` answer phase one's
   * `album_exists` and `save_album_from_listing` for the listing at an index
   * of `release_ids`; `releaseExists`/`fetchOk`/`updateOk` answer phase two's
   * `album_exists`, `fetch_release` and `update_album_with_release` for the
   * id at an index; `cancelRequested` says whether `cancel` has been called
   * by the time of a check.
   */
  datatype Env = Env(
    inventory: PageOracle,
    listingExists: (nat, nat) -> Result<bool>,
    saveOk: (nat, nat) -> bool,
    releaseExists: (nat, nat) -> Result<bool>,
    fetchOk: (nat, nat) -> bool,
    updateOk: (nat, nat) -> bool,
    cancelRequested: CheckPoint -> bool)

  /** The batch size when none is given. */
  const DefaultBatchSize: nat := 10

  /** What `check_cancelled` sees at a check: the flag was set before the run, or `cancel` has been called since. */
  predicate Halted(env: Env, flag: bool, cp: CheckPoint) {
    flag || env.cancelRequested(cp)
  }

  /** The flag of a job, set by `cancel` and read by `check_cancelled`. */
  class ScrapeJob {
    var cancelled: bool

    /** A new job is not cancelled. */
    constructor()
      ensures !cancelled
    {
      cancelled := false;
    }

    /** `cancel`: sets the flag; nothing clears it. */
    method Cancel()
      modifies this
      ensures cancelled
    {
      cancelled := true;
    }

    /** `check_cancelled`: fails with `Cancelled` exactly when the flag is set. */
    method CheckCancelled() returns (r: Result<()>)
      ensures r.Err? <==> cancelled
      ensures r.Err? ==> r.error == Cancelled
    {
      if cancelled {
        r := Err(Cancelled);
      } else {
        r := Ok(());
      }
    }

    /** After `cancel`, the next `check_cancelled` fails with `Cancelled`. */
    method CancelThenCheck() returns (r: Result<()>)
      modifies this
      ensures cancelled && r == Err(Cancelled)
    {
      Cancel();
      r := CheckCancelled();
    }

    /** `run`: phase one, then phase two on the ids phase one recorded. */
    method Run(env: Env, limit: Option<U32>, batchSize: Option<U32>) returns (r: Result<ScrapeResult>)
      requires batchSize != Some(0)
      ensures r == RunSpec(env, cancelled, limit, batchSize)
    {
      var bs := BatchSize(batchSize);
      var inventory := InventoryPhase(env, limit);
      if inventory.Err? {
        return Err(inventory.error);
      }
      var progress := inventory.value;
      var enrichment := EnrichmentPhase(env, progress.releaseIds, bs);
      if enrichment.Err? {
        return Err(enrichment.error);
      }
      r := Ok(ScrapeResult(progress.added, enrichment.value.updated, progress.total));
    }

    /** Phase one of `run`: pages 1, 2, ... and each page's listings, until the limit or the last page. */
    method InventoryPhase(env: Env, limit: Option<U32>) returns (r: Result<Progress>)
      ensures r == InventorySpec(env, cancelled, limit)
    {
      var progress := Progress([], 0, 0, 0);
      var page: U32 := 1;
      while true
        invariant page >= 1
        invariant PagesFrom(env, cancelled, limit, page, progress) == InventorySpec(env, cancelled, limit)
        decreases 0x1_0000_0000 - page
      {
        ghost var before := progress;
        if cancelled || env.cancelRequested(BeforePage(page)) {
          return Err(Cancelled);
        }
        var response := env.inventory(page);
        if response.Err? {
          return Err(response.error);
        }
        if page == 1 {
          progress := progress.(total := response.value.items);
        }
        var listed := ProcessListings(env, limit, response.value.releaseIds, progress);
        if listed.Err? {
          return Err(listed.error);
        }
        progress := listed.value;
        if limit.Some? && progress.processed >= limit.value {
          break;
        }
        if page >= response.value.pages {
          break;
        }
        PagesStep(env, cancelled, limit, page, before, progress);
        page := page + 1;
      }
      r := Ok(progress);
    }

    /** The listing loop of one page: record, look up, maybe save, count, and stop at the limit. */
    method ProcessListings(env: Env, limit: Option<U32>, listings: seq<nat>, start: Progress) returns (r: Result<Progress>)
      ensures r == ListingsFrom(env, cancelled, limit, listings, start)
    {
      var releaseIds: seq<nat> := start.releaseIds;
      var processed: nat := start.processed;
      var albumsAdded: nat := start.added;
      var i := 0;
      while i < |listings|
        invariant 0 <= i <= |listings|
        invariant ListingsFrom(env, cancelled, limit, listings[i..], Progress(releaseIds, processed, albumsAdded, start.total))
                  == ListingsFrom(env, cancelled, limit, listings, start)
      {
        if cancelled || env.cancelRequested(BeforeListing(processed)) {
          return Err(Cancelled);
        }
        var id := listings[i];
        releaseIds := releaseIds + [id];
        var found := env.listingExists(processed, id);
        if found.Err? {
          return Err(found.error);
        }
        if !found.value && env.saveOk(processed, id) {
          albumsAdded := albumsAdded + 1;
        }
        processed := processed + 1;
        assert listings[i..][1..] == listings[i + 1..];
        if limit.Some? && processed >= limit.value {
          break;
        }
        i := i + 1;
      }
      r := Ok(Progress(releaseIds, processed, albumsAdded, start.total));
    }

    /** Phase two of `run`: the ids in batches of `batchSize`, each id looked up, fetched and updated. */
    method EnrichmentPhase(env: Env, releaseIds: seq<nat>, batchSize: nat) returns (r: Result<Enriched>)
      requires batchSize > 0
      ensures r == EnrichmentSpec(env, cancelled, releaseIds, batchSize)
    {
      var n := |releaseIds|;
      var albumsUpdated: nat := 0;
      var enrichmentProcessed: nat := 0;
      var batchStart: nat := 0;
      while batchStart < n
        invariant BatchesOver(env, cancelled, releaseIds, BatchRangesFrom(batchStart, n, batchSize),
                              Enriched(albumsUpdated, enrichmentProcessed))
                  == EnrichmentSpec(env, cancelled, releaseIds, batchSize)
        decreases n - batchStart
      {
        if cancelled || env.cancelRequested(BeforeBatch(batchStart)) {
          return Err(Cancelled);
        }
        var batchEnd := BatchEnd(batchStart, batchSize, n);
        var done := EnrichBatch(env, releaseIds, batchStart, batchEnd, Enriched(albumsUpdated, enrichmentProcessed));
        if done.Err? {
          return Err(done.error);
        }
        albumsUpdated, enrichmentProcessed := done.value.updated, done.value.processed;
        batchStart := batchStart + batchSize;
      }
      r := Ok(Enriched(albumsUpdated, enrichmentProcessed));
    }

    /** One batch of phase two: the ids in `[batchStart, batchEnd)`, each looked up, fetched and updated. */
    method EnrichBatch(env: Env, releaseIds: seq<nat>, batchStart: nat, batchEnd: nat, start: Enriched)
      returns (r: Result<Enriched>)
      requires batchEnd <= |releaseIds|
      ensures r == ReleasesFrom(env, cancelled, releaseIds, batchStart, batchEnd, start)
    {
      var albumsUpdated, enrichmentProcessed := start.updated, start.processed;
      var j := batchStart;
      while j < batchEnd
        invariant ReleasesFrom(env, cancelled, releaseIds, j, batchEnd, Enriched(albumsUpdated, enrichmentProcessed))
                  == ReleasesFrom(env, cancelled, releaseIds, batchStart, batchEnd, start)
        decreases batchEnd - j
      {
        if cancelled || env.cancelRequested(BeforeRelease(j)) {
          return Err(Cancelled);
        }
        var id := releaseIds[j];
        var found := env.releaseExists(j, id);
        if found.Err? {
          return Err(found.error);
        }
        if found.value && env.fetchOk(j, id) && env.updateOk(j, id) {
          albumsUpdated := albumsUpdated + 1;
        }
        enrichmentProcessed := enrichmentProcessed + 1;
        j := j + 1;
      }
      r := Ok(Enriched(albumsUpdated, enrichmentProcessed));
    }
  }

  // ---------------------------------------------------------------------
  // Phase one: the inventory pages.
  // ---------------------------------------------------------------------

  /** Phase one's counters: `release_ids`, `processed`, `albums_added`, `total_items`. */
  datatype Progress = Progress(releaseIds: seq<nat>, processed: nat, added: nat, total: U32)

  /** The listing at index `n` is stored by phase one: it did not exist and its save succeeded. */
  predicate Adds(env: Env, n: nat, id: nat) {
    env.listingExists(n, id) == Ok(false) && env.saveOk(n, id)
  }

  /** How many of the recorded listings phase one stored. */
  function AddedCount(env: Env, ids: seq<nat>): (c: nat)
    ensures c <= |ids|
  {
    if ids == [] then 0
    else AddedCount(env, ids[..|ids| - 1]) + (if Adds(env, |ids| - 1, ids[|ids| - 1]) then 1 else 0)
  }

  /** The rest of a page's listing loop, from the counters `p` on. */
  function ListingsFrom(env: Env, flag: bool, limit: Option<U32>, listings: seq<nat>, p: Progress): Result<Progress>
    decreases |listings|
  {
    if listings == [] then Ok(p)
    else if Halted(env, flag, BeforeListing(p.processed)) then Err(Cancelled)
    else
      var n, id := p.processed, listings[0];
      match env.listingExists(n, id)
      case Err(e) => Err(e)
      case Ok(found) =>
        var q := Progress(p.releaseIds + [id], n + 1, if !found && env.saveOk(n, id) then p.added + 1 else p.added, p.total);
        if LimitReached(limit, q.processed) then Ok(q)
        else ListingsFrom(env, flag, limit, listings[1..], q)
  }

  /** The rest of phase one from `page` on. */
  function PagesFrom(env: Env, flag: bool, limit: Option<U32>, page: U32, p: Progress): Result<Progress>
    requires page >= 1
    decreases 0x1_0000_0000 - page
  {
    if Halted(env, flag, BeforePage(page)) then Err(Cancelled)
    else
      match env.inventory(page)
      case Err(e) => Err(e)
      case Ok(response) =>
        var p1 := if page == 1 then p.(total := response.items) else p;
        match ListingsFrom(env, flag, limit, response.releaseIds, p1)
        case Err(e) => Err(e)
        case Ok(q) =>
          if LimitReached(limit, q.processed) || page >= response.pages then Ok(q)
          else PagesFrom(env, flag, limit, page + 1, q)
  }

  /** A page that ends with neither the limit nor the last page hands its counters to the next page. */
  lemma PagesStep(env: Env, flag: bool, limit: Option<U32>, page: U32, p: Progress, q: Progress)
    requires page >= 1 && !Halted(env, flag, BeforePage(page)) && env.inventory(page).Ok?
    requires var response := env.inventory(page).value;
             var p1 := if page == 1 then p.(total := response.items) else p;
             && ListingsFrom(env, flag, limit, response.releaseIds, p1) == Ok(q)
             && !LimitReached(limit, q.processed) && page < response.pages
    ensures page + 1 < 0x1_0000_0000
    ensures PagesFrom(env, flag, limit, page, p) == PagesFrom(env, flag, limit, page + 1, q)
  {
  }

  /** Phase one from its initial counters. */
  function InventorySpec(env: Env, flag: bool, limit: Option<U32>): Result<Progress> {
    PagesFrom(env, flag, limit, 1, Progress([], 0, 0, 0))
  }

  /** Counters phase one keeps consistent: one count per recorded id, and the stored ones among them. */
  predicate Consistent(env: Env, p: Progress) {
    p.processed == |p.releaseIds| && p.added == AddedCount(env, p.releaseIds)
  }

  /**
   * A page's listing loop records a prefix of the page's ids after those
   * already recorded, counting each one, and leaves `total_items` alone.
   */
  lemma {:induction false} ListingsCounts(env: Env, flag: bool, limit: Option<U32>, listings: seq<nat>, p: Progress)
    requires Consistent(env, p)
    ensures var r := ListingsFrom(env, flag, limit, listings, p);
            r.Ok? ==> && Consistent(env, r.value)
                      && |p.releaseIds| <= |r.value.releaseIds| <= |p.releaseIds| + |listings|
                      && r.value.releaseIds == p.releaseIds + listings[..|r.value.releaseIds| - |p.releaseIds|]
                      && r.value.total == p.total
    decreases |listings|
  {
    if listings != [] && !Halted(env, flag, BeforeListing(p.processed)) && env.listingExists(p.processed, listings[0]).Ok? {
      var n, id := p.processed, listings[0];
      var found := env.listingExists(n, id).value;
      var q := Progress(p.releaseIds + [id], n + 1, if !found && env.saveOk(n, id) then p.added + 1 else p.added, p.total);
      RecordKeepsConsistent(env, p, id, found);
      if !LimitReached(limit, q.processed) {
        assert ListingsFrom(env, flag, limit, listings, p) == ListingsFrom(env, flag, limit, listings[1..], q);
        ListingsCounts(env, flag, limit, listings[1..], q);
        var r := ListingsFrom(env, flag, limit, listings[1..], q);
        if r.Ok? {
          PrefixAfterHead(p.releaseIds, listings, |r.value.releaseIds| - |q.releaseIds|);
        }
      } else {
        assert ListingsFrom(env, flag, limit, listings, p) == Ok(q);
        assert listings[..1] == [id];
      }
    }
  }

  /** Recording one more listing keeps the counters consistent. */
  lemma RecordKeepsConsistent(env: Env, p: Progress, id: nat, found: bool)
    requires Consistent(env, p) && env.listingExists(p.processed, id) == Ok(found)
    ensures var n := p.processed;
            Consistent(env, Progress(p.releaseIds + [id], n + 1, if !found && env.saveOk(n, id) then p.added + 1 else p.added, p.total))
  {
    var ids := p.releaseIds + [id];
    assert ids[..|ids| - 1] == p.releaseIds;
  }

  /** The first listing followed by `k` more is the prefix of length `k + 1`. */
  lemma PrefixAfterHead(before: seq<nat>, listings: seq<nat>, k: int)
    requires 0 <= k < |listings|
    ensures before + [listings[0]] + listings[1..][..k] == before + listings[..k + 1]
  {
    assert [listings[0]] + listings[1..][..k] == listings[..k + 1];
  }

  /** Phase one from any page: the same, for all the pages it reads; pages after the first leave `total_items` alone. */
  lemma {:induction false} PagesCounts(env: Env, flag: bool, limit: Option<U32>, page: U32, p: Progress)
    requires page >= 1 && Consistent(env, p)
    ensures var r := PagesFrom(env, flag, limit, page, p);
            r.Ok? ==> && Consistent(env, r.value)
                      && p.releaseIds <= r.value.releaseIds
                      && (page > 1 ==> r.value.total == p.total)
    decreases 0x1_0000_0000 - page
  {
    if !Halted(env, flag, BeforePage(page)) && env.inventory(page).Ok? {
      var response := env.inventory(page).value;
      var p1 := if page == 1 then p.(total := response.items) else p;
      ListingsCounts(env, flag, limit, response.releaseIds, p1);
      var l := ListingsFrom(env, flag, limit, response.releaseIds, p1);
      if l.Ok? && !(LimitReached(limit, l.value.processed) || page >= response.pages) {
        PagesCounts(env, flag, limit, page + 1, l.value);
      }
    }
  }

  /**
   * What phase one returns on success: one `processed` count per recorded
   * id, `albums_added` the number of stored listings among them (so never
   * more than `processed`), and `total_items` the `items` of page 1.
   */
  lemma InventoryCounts(env: Env, flag: bool, limit: Option<U32>)
    requires InventorySpec(env, flag, limit).Ok?
    ensures var p := InventorySpec(env, flag, limit).value;
            && p.processed == |p.releaseIds|
            && p.added == AddedCount(env, p.releaseIds) <= p.processed
            && env.inventory(1).Ok? && p.total == env.inventory(1).value.items
  {
    var start := Progress([], 0, 0, 0);
    assert Consistent(env, start);
    var response := env.inventory(1).value;
    var p1 := start.(total := response.items);
    ListingsCounts(env, flag, limit, response.releaseIds, p1);
    var l := ListingsFrom(env, flag, limit, response.releaseIds, p1);
    if !(LimitReached(limit, l.value.processed) || 1 >= response.pages) {
      PagesCounts(env, flag, limit, 2, l.value);
    }
  }

  /** The most listings a limit lets through: the limit, but at least one, since the check follows the count. */
  function LimitCap(m: U32): nat {
    if m == 0 then 1 else m
  }

  lemma {:induction false} ListingsLimit(env: Env, flag: bool, m: U32, listings: seq<nat>, p: Progress)
    requires p.processed == 0 || p.processed < m
    ensures var r := ListingsFrom(env, flag, Some(m), listings, p);
            r.Ok? ==> r.value.processed <= LimitCap(m) && (r.value.processed < m || LimitReached(Some(m), r.value.processed))
    decreases |listings|
  {
    if listings != [] && !Halted(env, flag, BeforeListing(p.processed)) && env.listingExists(p.processed, listings[0]).Ok? {
      var n, id := p.processed, listings[0];
      var found := env.listingExists(n, id).value;
      var q := Progress(p.releaseIds + [id], n + 1, if !found && env.saveOk(n, id) then p.added + 1 else p.added, p.total);
      if !LimitReached(Some(m), q.processed) {
        ListingsLimit(env, flag, m, listings[1..], q);
      }
    }
  }

  lemma {:induction false} PagesLimit(env: Env, flag: bool, m: U32, page: U32, p: Progress)
    requires page >= 1 && (p.processed == 0 || p.processed < m)
    ensures var r := PagesFrom(env, flag, Some(m), page, p);
            r.Ok? ==> r.value.processed <= LimitCap(m)
    decreases 0x1_0000_0000 - page
  {
    if !Halted(env, flag, BeforePage(page)) && env.inventory(page).Ok? {
      var response := env.inventory(page).value;
      var p1 := if page == 1 then p.(total := response.items) else p;
      ListingsLimit(env, flag, m, response.releaseIds, p1);
      var l := ListingsFrom(env, flag, Some(m), response.releaseIds, p1);
      if l.Ok? && !(LimitReached(Some(m), l.value.processed) || page >= response.pages) {
        PagesLimit(env, flag, m, page + 1, l.value);
      }
    }
  }

  /** With `limit = Some(m)`, phase one processes at most `m` listings, or one when `m` is 0. */
  lemma InventoryLimit(env: Env, flag: bool, m: U32)
    requires InventorySpec(env, flag, Some(m)).Ok?
    ensures InventorySpec(env, flag, Some(m)).value.processed <= LimitCap(m)
  {
    PagesLimit(env, flag, m, 1, Progress([], 0, 0, 0));
  }

  /** No cancellation is requested and every `album_exists` of phase one answers. */
  ghost predicate QuietInventory(env: Env, flag: bool) {
    && !flag
    && (forall cp :: !env.cancelRequested(cp))
    && (forall n: nat, id: nat :: env.listingExists(n, id).Ok?)
  }

  lemma {:induction false} ListingsQuiet(env: Env, limit: Option<U32>, listings: seq<nat>, p: Progress)
    requires QuietInventory(env, false)
    requires p.processed == |p.releaseIds| && !LimitReached(limit, p.processed)
    ensures var r := ListingsFrom(env, false, limit, listings, p);
            && r.Ok? && r.value.processed == |r.value.releaseIds|
            && r.value.releaseIds == Truncated(p.releaseIds + listings, limit)
    decreases |listings|
  {
    if listings == [] {
      assert p.releaseIds + listings == p.releaseIds;
    } else {
      var n, id := p.processed, listings[0];
      assert !Halted(env, false, BeforeListing(n));
      var found := env.listingExists(n, id).value;
      var ids := p.releaseIds + [id];
      var q := Progress(ids, n + 1, if !found && env.saveOk(n, id) then p.added + 1 else p.added, p.total);
      assert ids + listings[1..] == p.releaseIds + listings;
      if LimitReached(limit, q.processed) {
        assert (p.releaseIds + listings)[..limit.value] == ids;
      } else {
        ListingsQuiet(env, limit, listings[1..], q);
      }
    }
  }

  lemma {:induction false} PagesQuiet(env: Env, limit: Option<U32>, page: U32, p: Progress)
    requires QuietInventory(env, false) && page >= 1
    requires p.processed == |p.releaseIds| && !LimitReached(limit, p.processed)
    ensures var f := FetchFrom(env.inventory, limit, page, p.releaseIds);
            var r := PagesFrom(env, false, limit, page, p);
            && (f.Err? ==> r == Err(f.error))
            && (f.Ok? ==> r.Ok? && r.value.releaseIds == f.value)
    decreases 0x1_0000_0000 - page
  {
    assert !Halted(env, false, BeforePage(page));
    if env.inventory(page).Ok? {
      var response := env.inventory(page).value;
      var p1 := if page == 1 then p.(total := response.items) else p;
      ListingsQuiet(env, limit, response.releaseIds, p1);
      var q := ListingsFrom(env, false, limit, response.releaseIds, p1).value;
      if !(LimitReached(limit, q.processed) || page >= response.pages) {
        PagesQuiet(env, limit, page + 1, q);
      }
    }
  }

  /**
   * When nothing is cancelled and every lookup answers, phase one records
   * exactly the ids `fetch_all_inventory` of inventory.rs returns, and fails
   * exactly when it fails, with the same error; a limit of 0 is excluded,
   * where the two differ (`ZeroLimitTakesOne`).
   */
  lemma InventoryMatchesFetchAll(env: Env, limit: Option<U32>)
    requires QuietInventory(env, false) && limit != Some(0)
    ensures var f := FetchAll(env.inventory, limit);
            var r := InventorySpec(env, false, limit);
            && (f.Err? ==> r == Err(f.error))
            && (f.Ok? ==> r.Ok? && r.value.releaseIds == f.value)
  {
    PagesQuiet(env, limit, 1, Progress([], 0, 0, 0));
  }

  /**
   * With `limit = Some(0)` and a first page that has listings, phase one
   * still records and processes the first listing, because the limit is
   * checked after the count; `fetch_all_inventory` returns no id.
   */
  lemma ZeroLimitTakesOne(env: Env, response: InventoryPage)
    requires QuietInventory(env, false)
    requires env.inventory(1) == Ok(response) && response.releaseIds != []
    ensures InventorySpec(env, false, Some(0)).Ok?
    ensures InventorySpec(env, false, Some(0)).value.releaseIds == [response.releaseIds[0]]
    ensures FetchAll(env.inventory, Some(0)) == Ok([])
  {
    assert !Halted(env, false, BeforePage(1));
    assert !Halted(env, false, BeforeListing(0));
    assert env.listingExists(0, response.releaseIds[0]).Ok?;
  }

  // ---------------------------------------------------------------------
  // Phase two: the enrichment batches.
  // ---------------------------------------------------------------------

  /** Phase two's counters: `albums_updated` and `enrichment_processed`. */
  datatype Enriched = Enriched(updated: nat, processed: nat)

  /** The end of the batch that starts at `start`: `min(start + batch_size, n)`. */
  function BatchEnd(start: nat, batchSize: nat, n: nat): nat {
    if start + batchSize < n then start + batchSize else n
  }

  /** The batches `(0..n).step_by(batch_size)` visits from `start` on, as `[batch_start, batch_end)` ranges. */
  function BatchRangesFrom(start: nat, n: nat, batchSize: nat): (r: seq<(nat, nat)>)
    requires batchSize > 0
    ensures forall k :: 0 <= k < |r| ==> r[k].1 <= n
    decreases n - start
  {
    if start >= n then [] else [(start, BatchEnd(start, batchSize, n))] + BatchRangesFrom(start + batchSize, n, batchSize)
  }

  /** All the batches of `n` ids. */
  function BatchRanges(n: nat, batchSize: nat): seq<(nat, nat)>
    requires batchSize > 0
  {
    BatchRangesFrom(0, n, batchSize)
  }

  /** The ranges from `start`: none once `start` reaches `n`; otherwise the first starts at `start` and the last ends at `n`. */
  lemma {:induction false} BatchRangesFromEnds(start: nat, n: nat, batchSize: nat)
    requires batchSize > 0
    ensures var r := BatchRangesFrom(start, n, batchSize);
            && (r == [] <==> start >= n)
            && (r != [] ==> r[0].0 == start && r[|r| - 1].1 == n)
    decreases n - start
  {
    if start < n {
      BatchRangesFromEnds(start + batchSize, n, batchSize);
    }
  }

  /** A range that is non-empty and at most `batch_size` long. */
  predicate SizedRange(range: (nat, nat), batchSize: nat) {
    range.0 < range.1 <= range.0 + batchSize
  }

  /** Each range from `start` is non-empty and at most `batch_size` long. */
  lemma {:induction false} BatchRangesFromSizes(start: nat, n: nat, batchSize: nat)
    requires batchSize > 0
    ensures forall k :: 0 <= k < |BatchRangesFrom(start, n, batchSize)| ==> SizedRange(BatchRangesFrom(start, n, batchSize)[k], batchSize)
    decreases n - start
  {
    if start < n {
      BatchRangesFromSizes(start + batchSize, n, batchSize);
      var r := BatchRangesFrom(start, n, batchSize);
      var rest := BatchRangesFrom(start + batchSize, n, batchSize);
      assert r == [(start, BatchEnd(start, batchSize, n))] + rest;
      forall k | 0 < k < |r| ensures SizedRange(r[k], batchSize) {
        assert r[k] == rest[k - 1];
      }
    }
  }

  /** Each range from `start` but the last is exactly `batch_size` long and ends where the next one starts. */
  lemma {:induction false} BatchRangesFromConsecutive(start: nat, n: nat, batchSize: nat)
    requires batchSize > 0
    ensures var r := BatchRangesFrom(start, n, batchSize);
            forall k :: 0 <= k < |r| - 1 ==> r[k].1 == r[k + 1].0 && r[k].1 == r[k].0 + batchSize
    decreases n - start
  {
    if start < n {
      BatchRangesFromConsecutive(start + batchSize, n, batchSize);
      BatchRangesFromEnds(start + batchSize, n, batchSize);
      var r := BatchRangesFrom(start, n, batchSize);
      var rest := BatchRangesFrom(start + batchSize, n, batchSize);
      forall k | 0 <= k < |r| - 1 ensures r[k].1 == r[k + 1].0 && r[k].1 == r[k].0 + batchSize {
        if k > 0 {
          assert r[k] == rest[k - 1] && r[k + 1] == rest[k];
        } else {
          assert r[1] == rest[0];
        }
      }
    }
  }

  /**
   * The batches partition `0..n` in order: none when `n` is 0; otherwise
   * the first starts at 0, the last ends at `n`, each starts where the
   * previous ended, and each holds between 1 and `batch_size` ids.
   */
  lemma BatchRangesPartition(n: nat, batchSize: nat)
    requires batchSize > 0
    ensures var r := BatchRanges(n, batchSize);
            && (r == [] <==> n == 0)
            && (r != [] ==> r[0].0 == 0 && r[|r| - 1].1 == n)
            && (forall k :: 0 <= k < |r| ==> r[k].0 < r[k].1 <= r[k].0 + batchSize)
            && (forall k :: 0 <= k < |r| - 1 ==> r[k].1 == r[k + 1].0 && r[k].1 == r[k].0 + batchSize)
  {
    BatchRangesFromEnds(0, n, batchSize);
    BatchRangesFromSizes(0, n, batchSize);
    BatchRangesFromConsecutive(0, n, batchSize);
  }

  /** The rest of one batch's loop, from index `j` to `end`. */
  function ReleasesFrom(env: Env, flag: bool, ids: seq<nat>, j: nat, end: nat, e: Enriched): Result<Enriched>
    requires end <= |ids|
    decreases end - j
  {
    if j >= end then Ok(e)
    else if Halted(env, flag, BeforeRelease(j)) then Err(Cancelled)
    else
      match env.releaseExists(j, ids[j])
      case Err(err) => Err(err)
      case Ok(found) =>
        var updated := if found && env.fetchOk(j, ids[j]) && env.updateOk(j, ids[j]) then e.updated + 1 else e.updated;
        ReleasesFrom(env, flag, ids, j + 1, end, Enriched(updated, e.processed + 1))
  }

  /** The batches in `ranges`, in order, each opened by a cancellation check. */
  function BatchesOver(env: Env, flag: bool, ids: seq<nat>, ranges: seq<(nat, nat)>, e: Enriched): Result<Enriched>
    requires forall k :: 0 <= k < |ranges| ==> ranges[k].1 <= |ids|
    decreases |ranges|
  {
    if ranges == [] then Ok(e)
    else if Halted(env, flag, BeforeBatch(ranges[0].0)) then Err(Cancelled)
    else
      match ReleasesFrom(env, flag, ids, ranges[0].0, ranges[0].1, e)
      case Err(err) => Err(err)
      case Ok(e') => BatchesOver(env, flag, ids, ranges[1..], e')
  }

  /** Phase two from its initial counters. */
  function EnrichmentSpec(env: Env, flag: bool, ids: seq<nat>, batchSize: nat): Result<Enriched>
    requires batchSize > 0
  {
    BatchesOver(env, flag, ids, BatchRanges(|ids|, batchSize), Enriched(0, 0))
  }

  /** The id at index `j` is enriched: it exists, and both its fetch and its update succeed. */
  predicate Enriches(env: Env, j: nat, id: nat) {
    env.releaseExists(j, id) == Ok(true) && env.fetchOk(j, id) && env.updateOk(j, id)
  }

  /** How many of the first `k` ids phase two enriches. */
  function UpdateCount(env: Env, ids: seq<nat>, k: nat): (c: nat)
    requires k <= |ids|
    ensures c <= k
  {
    if k == 0 then 0 else UpdateCount(env, ids, k - 1) + (if Enriches(env, k - 1, ids[k - 1]) then 1 else 0)
  }

  lemma {:induction false} ReleasesOk(env: Env, flag: bool, ids: seq<nat>, j: nat, end: nat)
    requires j <= end <= |ids|
    ensures var r := ReleasesFrom(env, flag, ids, j, end, Enriched(UpdateCount(env, ids, j), j));
            r.Ok? ==> r.value == Enriched(UpdateCount(env, ids, end), end)
    decreases end - j
  {
    if j < end && !Halted(env, flag, BeforeRelease(j)) && env.releaseExists(j, ids[j]).Ok? {
      ReleasesOk(env, flag, ids, j + 1, end);
    }
  }

  lemma {:induction false} BatchesOk(env: Env, flag: bool, ids: seq<nat>, batchSize: nat, start: nat)
    requires batchSize > 0 && start <= |ids|
    ensures var r := BatchesOver(env, flag, ids, BatchRangesFrom(start, |ids|, batchSize), Enriched(UpdateCount(env, ids, start), start));
            r.Ok? ==> r.value == Enriched(UpdateCount(env, ids, |ids|), |ids|)
    decreases |ids| - start
  {
    var n := |ids|;
    if start < n && !Halted(env, flag, BeforeBatch(start)) {
      var end := BatchEnd(start, batchSize, n);
      var ranges := BatchRangesFrom(start, n, batchSize);
      assert ranges[0] == (start, end) && ranges[1..] == BatchRangesFrom(start + batchSize, n, batchSize);
      ReleasesOk(env, flag, ids, start, end);
      if end < n {
        BatchesOk(env, flag, ids, batchSize, end);
      } else {
        BatchRangesFromEnds(start + batchSize, n, batchSize);
      }
    }
  }

  /**
   * On success, phase two has processed every recorded id once
   * (`enrichment_processed` is their number) and `albums_updated` counts
   * the ids that existed and were fetched and updated, so it never exceeds
   * that number.
   */
  lemma EnrichmentCounts(env: Env, flag: bool, ids: seq<nat>, batchSize: nat)
    requires batchSize > 0 && EnrichmentSpec(env, flag, ids, batchSize).Ok?
    ensures var e := EnrichmentSpec(env, flag, ids, batchSize).value;
            e.processed == |ids| && e.updated == UpdateCount(env, ids, |ids|) <= |ids|
  {
    BatchesOk(env, flag, ids, batchSize, 0);
  }

  /** No cancellation is requested and every `album_exists` of phase two answers. */
  ghost predicate QuietEnrichment(env: Env, flag: bool) {
    && !flag
    && (forall cp :: !env.cancelRequested(cp))
    && (forall j: nat, id: nat :: env.releaseExists(j, id).Ok?)
  }

  lemma {:induction false} ReleasesQuiet(env: Env, ids: seq<nat>, j: nat, end: nat, e: Enriched)
    requires QuietEnrichment(env, false) && end <= |ids|
    ensures ReleasesFrom(env, false, ids, j, end, e).Ok?
    decreases end - j
  {
    if j < end {
      assert !Halted(env, false, BeforeRelease(j));
      var found := env.releaseExists(j, ids[j]).value;
      var updated := if found && env.fetchOk(j, ids[j]) && env.updateOk(j, ids[j]) then e.updated + 1 else e.updated;
      ReleasesQuiet(env, ids, j + 1, end, Enriched(updated, e.processed + 1));
    }
  }

  lemma {:induction false} BatchesQuiet(env: Env, ids: seq<nat>, ranges: seq<(nat, nat)>, e: Enriched)
    requires QuietEnrichment(env, false)
    requires forall k :: 0 <= k < |ranges| ==> ranges[k].1 <= |ids|
    ensures BatchesOver(env, false, ids, ranges, e).Ok?
    decreases |ranges|
  {
    if ranges != [] {
      assert !Halted(env, false, BeforeBatch(ranges[0].0));
      ReleasesQuiet(env, ids, ranges[0].0, ranges[0].1, e);
      BatchesQuiet(env, ids, ranges[1..], ReleasesFrom(env, false, ids, ranges[0].0, ranges[0].1, e).value);
    }
  }

  /** When nothing is cancelled and every lookup answers, phase two always succeeds. */
  lemma EnrichmentQuiet(env: Env, ids: seq<nat>, batchSize: nat)
    requires QuietEnrichment(env, false) && batchSize > 0
    ensures EnrichmentSpec(env, false, ids, batchSize).Ok?
  {
    BatchesQuiet(env, ids, BatchRanges(|ids|, batchSize), Enriched(0, 0));
  }

  // ---------------------------------------------------------------------
  // The whole run.
  // ---------------------------------------------------------------------

  /** `batch_size.unwrap_or(10)`: the given size, else the default; positive whenever the given one is. */
  function BatchSize(batchSize: Option<U32>): (bs: nat)
    requires batchSize != Some(0)
    ensures bs > 0
    ensures batchSize.Some? ==> bs == batchSize.value
    ensures batchSize.None? ==> bs == DefaultBatchSize
  {
    batchSize.GetOr(DefaultBatchSize as U32)
  }

  /** What `run` returns. */
  function RunSpec(env: Env, flag: bool, limit: Option<U32>, batchSize: Option<U32>): Result<ScrapeResult>
    requires batchSize != Some(0)
  {
    var bs := BatchSize(batchSize);
    match InventorySpec(env, flag, limit)
    case Err(e) => Err(e)
    case Ok(p) =>
      match EnrichmentSpec(env, flag, p.releaseIds, bs)
      case Err(e) => Err(e)
      case Ok(en) => Ok(ScrapeResult(p.added, en.updated, p.total))
  }

  /**
   * A successful run reports the listings phase one stored, the ids phase
   * two enriched among those phase one recorded, and page 1's `items`; so
   * `albums_added` and `albums_updated` are at most the number of ids
   * recorded, which is at most the limit (or 1 when the limit is 0).
   */
  lemma RunResult(env: Env, flag: bool, limit: Option<U32>, batchSize: Option<U32>)
    requires batchSize != Some(0) && RunSpec(env, flag, limit, batchSize).Ok?
    ensures var res := RunSpec(env, flag, limit, batchSize).value;
            var ids := InventorySpec(env, flag, limit).value.releaseIds;
            && InventorySpec(env, flag, limit).Ok?
            && res.albumsAdded == AddedCount(env, ids) <= |ids|
            && res.albumsUpdated == UpdateCount(env, ids, |ids|) <= |ids|
            && env.inventory(1).Ok? && res.totalItems == env.inventory(1).value.items
            && (limit.Some? ==> |ids| <= LimitCap(limit.value))
  {
    InventoryCounts(env, flag, limit);
    var ids := InventorySpec(env, flag, limit).value.releaseIds;
    EnrichmentCounts(env, flag, ids, BatchSize(batchSize));
    if limit.Some? {
      InventoryLimit(env, flag, limit.value);
    }
  }

  /** A job cancelled before `run` starts fails with `Cancelled` before any request. */
  lemma CancelledRunFails(env: Env, limit: Option<U32>, batchSize: Option<U32>)
    requires batchSize != Some(0)
    ensures RunSpec(env, true, limit, batchSize) == Err(Cancelled)
  {
    assert Halted(env, true, BeforePage(1));
  }
}
