/** The synchronisation job from end to end: guards, parser and tenant session
    (worker/tasks/catalog_sync.py, `sync_catalog_from_hub`). */
module SyncJob {

  import opened Common
  import CatalogSync
  import Normalize
  import SyncGuards
  import SyncLock
  import NormalizedEntries

  function Items(entries: seq<Normalize.Entry>): seq<CatalogSync.Item> {
    seq(|entries|, i requires 0 <= i < |entries| => entries[i].item)
  }

  /** What the worker finds: the connection, the settings, the hub's answer (`None` when fetching it
      raised) and whether the database accepts the commit. */
  datatype Setting = Setting(
    active: bool, configured: bool, timing: SyncLock.Timing, limit: int, payload: Option<Normalize.Json>, commits: bool)

  /** The catalogue of a run is what the hub's answer normalises to, if it does. */
  ghost predicate CatalogOf(c: Normalize.Coercions, payload: Option<Normalize.Json>,
                            catalog: Option<seq<CatalogSync.Item>>) {
    match payload
    case None => catalog.None?
    case Some(json) =>
      exists r ::
        && Normalize.NormalizesTo(c, json, r)
        && catalog == match r case Ok(entries) => Some(Items(entries)) case Err(_) => None
  }

  /** Whether a job that asks for the lock gets it. */
  ghost predicate LockFree(redis: SyncGuards.Redis, timing: SyncLock.Timing, conn: nat)
    reads redis
  {
    !(conn in redis.locks && redis.now < redis.locks[conn].since + timing.ttl)
  }

  /** The run got the lock, if there is one. */
  predicate Locked(outcome: CatalogSync.Outcome) {
    !(outcome.NoConnection? || outcome.NotConfigured? || outcome.LockBusy?)
  }

  /** The run got past connection, settings and guards. */
  predicate Asked(outcome: CatalogSync.Outcome) {
    Locked(outcome) && !outcome.RateLimited?
  }

  /** `sync_catalog_from_hub`.  The run is one of those the laws about whole histories speak of; its
      catalogue is the parser's answer; and a lock that was taken is released on every way out. */
  method SyncCatalogFromHub(
    tenant: CatalogSync.Tenant, redis: SyncGuards.Redis?, c: Normalize.Coercions, conn: nat, j: nat, s: Setting)
    returns (outcome: CatalogSync.Outcome, ghost run: CatalogSync.Attempt)
    requires tenant.Valid()
    modifies tenant, redis
    ensures tenant.Valid()
    ensures run.active == s.active && run.configured == s.configured && run.commits == s.commits
    ensures run.lock == if redis == null then None else Some(old(LockFree(redis, s.timing, conn)))
    ensures redis != null && Locked(outcome) ==> run.rate == (old(redis.CountNow(conn)) + 1 <= s.limit)
    ensures Asked(outcome) ==> CatalogOf(c, s.payload, run.catalog)
    ensures outcome == CatalogSync.Decide(old(tenant.snapshots), conn, run)
    ensures CatalogSync.SyncStep(
              CatalogSync.View(old(tenant.products), old(tenant.snapshots)), conn, run,
              CatalogSync.View(tenant.products, tenant.snapshots))
    ensures redis != null ==>
              redis.locks == if Locked(outcome) then old(redis.locks) - {conn} else old(redis.locks)
  {
    run := CatalogSync.Attempt(
      s.active, s.configured, if redis == null then None
                              else Some(LockFree(redis, s.timing, conn)), true, None, s.commits);
    if !s.active { return CatalogSync.NoConnection, run; }
    if !s.configured { return CatalogSync.NotConfigured, run; }
    if redis != null {
      var locked, allowed := PassGuards(redis, s, conn, j);
      run := run.(rate := allowed);
      if !locked { return CatalogSync.LockBusy, run; }
      if !allowed { return CatalogSync.RateLimited, run; }
    }
    var catalog := FetchCatalog(c, s.payload);
    run := run.(catalog := catalog);
    if catalog.None? {
      outcome := CatalogSync.FetchFailed;
    } else {
      outcome := tenant.StoreCatalog(conn, catalog.value, s.commits);
    }
    if redis != null { Unlock(redis, s, conn, j); }
  }

  /** The two guards; a run that the second one stops gives the lock back. */
  method PassGuards(redis: SyncGuards.Redis, s: Setting, conn: nat, j: nat) returns (locked: bool, allowed: bool)
    modifies redis
    ensures locked == old(LockFree(redis, s.timing, conn))
    ensures locked ==> allowed == (old(redis.CountNow(conn)) + 1 <= s.limit)
    ensures !locked ==> redis.locks == old(redis.locks) && redis.counters == old(redis.counters)
    ensures locked && !allowed ==> redis.locks == old(redis.locks) - {conn}
    ensures locked && allowed ==> redis.locks == old(redis.locks)[conn := SyncLock.Lock(j, redis.now)]
  {
    locked := redis.AcquireSyncLock(s.timing, conn, j);
    if !locked { return locked, false; }
    allowed := redis.CheckRateLimit(conn, s.limit);
    if !allowed { Unlock(redis, s, conn, j); }
  }

  /** The `finally` block. */
  method Unlock(redis: SyncGuards.Redis, s: Setting, conn: nat, ghost j: nat)
    modifies redis
    ensures redis.locks == old(redis.locks) - {conn}
  {
    redis.ReleaseSyncLock(s.timing, conn, j);
  }

  /** Fetching and normalising; every error of either ends the run. */
  method FetchCatalog(c: Normalize.Coercions, payload: Option<Normalize.Json>)
    returns (catalog: Option<seq<CatalogSync.Item>>)
    ensures CatalogOf(c, payload, catalog)
  {
    if payload.None? { return None; }
    var r := Normalize.NormalizeCatalog(c, payload.value);
    match r
    case Err(_) => catalog := None;
    case Ok(entries) => catalog := Some(Items(entries));
  }

  /** A payload that does not normalise, for whatever reason, has no catalogue, and the run that got
      so far changes nothing. */
  lemma MalformedChangesNothing(
    c: Normalize.Coercions, json: Normalize.Json, e: Normalize.Failure, before: CatalogSync.View, conn: nat,
    run: CatalogSync.Attempt, after: CatalogSync.View)
    requires Normalize.NormalizesTo(c, json, Err(e)) && CatalogOf(c, Some(json), run.catalog)
    requires CatalogSync.SyncStep(before, conn, run, after)
    ensures after == before && CatalogSync.Decide(before.snapshots, conn, run) != CatalogSync.Synced
  {
    var r :| Normalize.NormalizesTo(c, json, r) &&
             run.catalog == match r case Ok(entries) => Some(Items(entries)) case Err(_) => None;
    Normalize.NormalizesToOne(c, json, r, Err(e));
  }

  /** Without any product that has a SKU the catalogue is empty, and a filled snapshot stays. */
  lemma NothingPricedKeepsSnapshot(
    c: Normalize.Coercions, json: Normalize.Json, before: CatalogSync.View, conn: nat,
    run: CatalogSync.Attempt, after: CatalogSync.View)
    requires Normalize.NormalizesTo(c, json, Ok([])) && CatalogOf(c, Some(json), run.catalog)
    requires CatalogSync.SyncStep(before, conn, run, after)
    requires conn in before.snapshots && before.snapshots[conn] != []
    ensures after == before
  {
    var r :| Normalize.NormalizesTo(c, json, r) &&
             run.catalog == match r case Ok(entries) => Some(Items(entries)) case Err(_) => None;
    Normalize.NormalizesToOne(c, json, r, Ok([]));
  }

  /** The catalogue that a run stores, read off the payload: one item for each product with SKUs, in
      order, with the external id, name and other fields that the product says. */
  lemma StoredCatalog(c: Normalize.Coercions, json: Normalize.Json, catalog: seq<CatalogSync.Item>)
    returns (cs: seq<Normalize.Json>, products: seq<Normalize.Json>, idx: seq<nat>, entries: seq<Normalize.Entry>)
    requires CatalogOf(c, Some(json), Some(catalog))
    ensures json.Obj? && "data" in json.fields && json.fields["data"].Obj?
    ensures var data := json.fields["data"].fields;
            "products" in data && data["products"] == Normalize.Arr(products)
    ensures NormalizedEntries.PricedAt(products, idx) && |catalog| == |idx| && |entries| == |idx|
    ensures forall k :: 0 <= k < |idx| ==> catalog[k] == entries[k].item
    ensures forall k :: 0 <= k < |idx| ==> NormalizedEntries.Described(c, cs, products[idx[k]], entries[k])
  {
    var r :| Normalize.NormalizesTo(c, json, r) &&
             Some(catalog) == match r case Ok(entries) => Some(Items(entries)) case Err(_) => None;
    entries := r.value;
    cs, products, idx := NormalizedEntries.EntriesDescribeProducts(c, json, entries);
  }
}
