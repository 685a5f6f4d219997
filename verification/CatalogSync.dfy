/** Materialising the hub's catalogue into products, and the committed snapshot beside it
    (worker/tasks/catalog_sync.py, app/modules/catalog/snapshot_repository.py). */
module CatalogSync {

  import opened Common

  /** One `NormalizedCatalogProduct`, without its category, which is not written to products. */
  datatype Item = Item(
    ext: string, name: string, description: Option<string>, price: real, tax: Option<real>,
    image: Option<string>, active: bool)

  /** `local` stands for the columns a synchronisation never writes. */
  datatype Product = Product(
    ext: Option<string>, name: string, description: Option<string>, price: real, tax: Option<real>,
    image: Option<string>, active: bool, local: string)

  /** `Product(external_product_id=...)` with the column defaults. */
  function Fresh(ext: string): Product {
    Product(Some(ext), "", None, 0.0, None, None, true, "")
  }

  /** The six assignments of the loop. */
  function Overlay(p: Product, it: Item): Product {
    p.(name := it.name, description := it.description, price := it.price, tax := it.tax, image := it.image,
       active := it.active)
  }

  /** The last entry of the catalogue for an external id. */
  function LastEntry(catalog: seq<Item>, ext: string): Option<Item> {
    if catalog == [] then None
    else if catalog[|catalog| - 1].ext == ext then Some(catalog[|catalog| - 1])
    else LastEntry(catalog[..|catalog| - 1], ext)
  }

  type Products = map<nat, Product>

  /** `uq_products_external_product_id` */
  ghost predicate UniqueExt(ps: Products) {
    forall i, j :: i in ps && j in ps && i != j && ps[i].ext.Some? ==> ps[i].ext != ps[j].ext
  }

  /** What an existing product becomes. */
  function Upserted(p: Product, catalog: seq<Item>, deactivate: bool): Product {
    if p.ext.None? then p
    else
      match LastEntry(catalog, p.ext.value)
      case Some(it) => Overlay(p, it)
      case None => if deactivate then p.(active := false) else p
  }

  /** Nothing is removed or renumbered; existing products take their last entry's values. */
  ghost predicate Kept(before: Products, catalog: seq<Item>, deactivate: bool, after: Products) {
    forall id :: id in before ==> id in after && after[id] == Upserted(before[id], catalog, deactivate)
  }

  /** New products stand for listed external ids only. */
  ghost predicate Added(before: Products, catalog: seq<Item>, after: Products) {
    forall id :: id in after && id !in before ==>
      && after[id].ext.Some? && LastEntry(catalog, after[id].ext.value).Some?
      && after[id] == Overlay(Fresh(after[id].ext.value), LastEntry(catalog, after[id].ext.value).value)
  }

  ghost predicate HasExt(ps: Products, ext: string) {
    exists id :: id in ps && ps[id].ext == Some(ext)
  }

  ghost predicate AllListed(catalog: seq<Item>, ps: Products) {
    forall ext {:trigger HasExt(ps, ext)} :: LastEntry(catalog, ext).Some? ==> HasExt(ps, ext)
  }

  /** `after` is `before` with the catalogue upserted: the last entry wins, and products of no
      catalogue entry are switched off when `deactivate`. */
  ghost predicate Upsert(before: Products, catalog: seq<Item>, deactivate: bool, after: Products) {
    && Kept(before, catalog, deactivate, after) && Added(before, catalog, after)
    && AllListed(catalog, after) && UniqueExt(after)
  }

  // ---------------------------------------------------------------- the two loops

  lemma LastEntryNext(catalog: seq<Item>, k: nat, ext: string)
    requires k < |catalog|
    ensures LastEntry(catalog[..k + 1], ext) ==
              if catalog[k].ext == ext then Some(catalog[k]) else LastEntry(catalog[..k], ext)
  {
    assert catalog[..k + 1][..k] == catalog[..k];
  }

  /** The dictionary `existing` points at exactly the products that have an external id. */
  ghost predicate Indexed(ps: Products, existing: map<string, nat>) {
    && (forall ext :: ext in existing ==> existing[ext] in ps && ps[existing[ext]].ext == Some(ext))
    && (forall id :: id in ps && ps[id].ext.Some? ==> ps[id].ext.value in existing && existing[ps[id].ext.value] == id)
  }

  /** One iteration of the first loop, as an effect on the table. */
  function UpsertOne(ps: Products, existing: map<string, nat>, nextId: nat, it: Item): (Products,
                     map<string, nat>, nat) {
    if it.ext in existing && existing[it.ext] in ps
    then (ps[existing[it.ext] := Overlay(ps[existing[it.ext]], it)], existing, nextId)
    else (ps[nextId := Overlay(Fresh(it.ext), it)], existing[it.ext := nextId], nextId + 1)
  }

  /** The state of the first loop after the entries `done`. */
  ghost predicate Progress(before: Products, done: seq<Item>, ps: Products, existing: map<string, nat>, nextId: nat) {
    Upsert(before, done, false, ps) && Indexed(ps, existing) && forall id :: id in ps ==> id < nextId
  }

  lemma NextKept(before: Products, catalog: seq<Item>, k: nat, ps: Products, existing: map<string, nat>, nextId: nat)
    requires k < |catalog| && Progress(before, catalog[..k], ps, existing, nextId)
    ensures Kept(before, catalog[..k + 1], false, UpsertOne(ps, existing, nextId, catalog[k]).0)
  {
    forall id | id in before && before[id].ext.Some?
      ensures LastEntry(catalog[..k + 1], before[id].ext.value) ==
                if catalog[k].ext == before[id].ext.value then Some(catalog[k])
                else LastEntry(catalog[..k], before[id].ext.value)
    {
      LastEntryNext(catalog, k, before[id].ext.value);
    }
  }

  lemma NextAdded(before: Products, catalog: seq<Item>, k: nat, ps: Products, existing: map<string, nat>, nextId: nat)
    requires k < |catalog| && Progress(before, catalog[..k], ps, existing, nextId)
    ensures Added(before, catalog[..k + 1], UpsertOne(ps, existing, nextId, catalog[k]).0)
  {
    var next := UpsertOne(ps, existing, nextId, catalog[k]).0;
    forall id | id in next && next[id].ext.Some?
      ensures LastEntry(catalog[..k + 1], next[id].ext.value) ==
                if catalog[k].ext == next[id].ext.value then Some(catalog[k])
                else LastEntry(catalog[..k], next[id].ext.value)
    {
      LastEntryNext(catalog, k, next[id].ext.value);
    }
  }

  lemma NextIndexed(ps: Products, existing: map<string, nat>, nextId: nat, it: Item)
    requires Indexed(ps, existing) && forall id :: id in ps ==> id < nextId
    ensures var (ps', existing', nextId') := UpsertOne(ps, existing, nextId, it);
            && Indexed(ps', existing') && UniqueExt(ps') && (forall id :: id in ps' ==> id < nextId')
            && HasExt(ps', it.ext) && (forall ext :: HasExt(ps, ext) ==> HasExt(ps', ext))
  {
    var (ps', existing', nextId') := UpsertOne(ps, existing, nextId, it);
    assert ps'[existing'[it.ext]].ext == Some(it.ext);
    forall ext | HasExt(ps, ext) ensures HasExt(ps', ext) {
      var id :| id in ps && ps[id].ext == Some(ext);
      assert ps'[id].ext == Some(ext);
    }
  }

  lemma ProgressNext(before: Products, catalog: seq<Item>, k: nat, ps: Products, existing: map<string, nat>,
                     nextId: nat)
    requires k < |catalog| && Progress(before, catalog[..k], ps, existing, nextId)
    ensures var (ps', existing', nextId') := UpsertOne(ps, existing, nextId, catalog[k]);
            Progress(before, catalog[..k + 1], ps', existing', nextId')
  {
    NextKept(before, catalog, k, ps, existing, nextId);
    NextAdded(before, catalog, k, ps, existing, nextId);
    NextIndexed(ps, existing, nextId, catalog[k]);
    var ps' := UpsertOne(ps, existing, nextId, catalog[k]).0;
    forall ext | LastEntry(catalog[..k + 1], ext).Some? ensures HasExt(ps', ext) {
      LastEntryNext(catalog, k, ext);
      assert ext == catalog[k].ext || HasExt(ps, ext);
    }
  }

  /** `after` is `loaded` with the unlisted products switched off. */
  ghost predicate Switched(catalog: seq<Item>, loaded: Products, after: Products) {
    && after.Keys == loaded.Keys
    && forall id :: id in loaded ==>
         after[id] == if loaded[id].ext.Some? && LastEntry(catalog, loaded[id].ext.value).None?
                      then loaded[id].(active := false) else loaded[id]
  }

  lemma SwitchedKept(before: Products, catalog: seq<Item>, loaded: Products, after: Products)
    requires Kept(before, catalog, false, loaded) && Switched(catalog, loaded, after)
    ensures Kept(before, catalog, true, after)
  {
  }

  lemma SwitchedAdded(before: Products, catalog: seq<Item>, loaded: Products, after: Products)
    requires Added(before, catalog, loaded) && Switched(catalog, loaded, after)
    ensures Added(before, catalog, after)
  {
  }

  lemma SwitchedListed(catalog: seq<Item>, loaded: Products, after: Products)
    requires AllListed(catalog, loaded) && UniqueExt(loaded) && Switched(catalog, loaded, after)
    ensures AllListed(catalog, after) && UniqueExt(after)
  {
    forall ext | HasExt(loaded, ext) ensures HasExt(after, ext) {
      var id :| id in loaded && loaded[id].ext == Some(ext);
      assert after[id].ext == Some(ext);
    }
    forall ext | LastEntry(catalog, ext).Some? ensures HasExt(after, ext) {
      assert HasExt(loaded, ext);
    }
  }

  // ---------------------------------------------------------------- one run of the job

  /** What a run of `sync_catalog_from_hub` meets on its way.  `lock` is `None` without Redis;
      `catalog` is `None` when fetching or normalising raised. */
  datatype Attempt = Attempt(
    active: bool, configured: bool, lock: Option<bool>, rate: bool, catalog: Option<seq<Item>>, commits: bool)

  datatype Outcome =
    | NoConnection | NotConfigured | LockBusy | RateLimited | FetchFailed | EmptyRefused | DatabaseError | Synced

  function Decide(snapshots: map<nat, seq<Item>>, conn: nat, run: Attempt): Outcome {
    if !run.active then NoConnection
    else if !run.configured then NotConfigured
    else if run.lock == Some(false) then LockBusy
    else if run.lock.Some? && !run.rate then RateLimited
    else if run.catalog.None? then FetchFailed
    else if run.catalog.value == [] && conn in snapshots && snapshots[conn] != [] then EmptyRefused
    else if !run.commits then DatabaseError
    else Synced
  }

  datatype View = View(products: Products, snapshots: map<nat, seq<Item>>)

  /** A run either commits the upsert and the snapshot together, or changes nothing. */
  ghost predicate SyncStep(before: View, conn: nat, run: Attempt, after: View) {
    if Decide(before.snapshots, conn, run) == Synced
    then Upsert(before.products, run.catalog.value, true, after.products)
         && after.snapshots == before.snapshots[conn := run.catalog.value]
    else after == before
  }

  class Tenant {
    var products: Products
    var nextId: nat
    var snapshots: map<nat, seq<Item>>

    ghost predicate Valid()
      reads this
    {
      UniqueExt(products) && forall id :: id in products ==> id < nextId
    }

    constructor ()
      ensures Valid() && products == map[] && snapshots == map[]
    {
      products, nextId, snapshots := map[], 0, map[];
    }

    /** `{p.external_product_id: p for p in result.scalars()}` */
    method IndexExisting() returns (existing: map<string, nat>)
      requires Valid()
      ensures Indexed(products, existing)
    {
      existing := map[];
      var rest := products.Keys;
      while rest != {}
        invariant rest <= products.Keys
        invariant forall ext :: ext in existing ==>
                    existing[ext] in products.Keys - rest && products[existing[ext]].ext == Some(ext)
        invariant forall id :: id in products.Keys - rest && products[id].ext.Some? ==>
                    products[id].ext.value in existing && existing[products[id].ext.value] == id
      {
        var id :| id in rest;
        rest := rest - {id};
        if products[id].ext.Some? { existing := existing[products[id].ext.value := id]; }
      }
    }

    /** One iteration: find or add the product, then overwrite its six fields. */
    method UpsertItem(existing: map<string, nat>, it: Item) returns (index: map<string, nat>)
      requires Indexed(products, existing)
      modifies this`products, this`nextId
      ensures (products, index, nextId) == UpsertOne(old(products), existing, old(nextId), it)
    {
      index := existing;
      if it.ext !in index {
        products := products[nextId := Fresh(it.ext)];
        index := index[it.ext := nextId];
        nextId := nextId + 1;
      }
      var id := index[it.ext];
      products := products[id := Overlay(products[id], it)];
      assert products == UpsertOne(old(products), existing, old(nextId), it).0;
    }

    /** The first loop: create or overwrite, remembering the ids seen. */
    method LoadCatalog(catalog: seq<Item>) returns (existing: map<string, nat>, seen: set<string>)
      requires Valid()
      modifies this`products, this`nextId
      ensures Progress(old(products), catalog, products, existing, nextId)
      ensures forall ext :: ext in seen <==> LastEntry(catalog, ext).Some?
    {
      existing := IndexExisting();
      seen := {};
      assert catalog[..0] == [];
      for k := 0 to |catalog|
        invariant Progress(old(products), catalog[..k], products, existing, nextId)
        invariant forall ext :: ext in seen <==> LastEntry(catalog[..k], ext).Some?
      {
        var it := catalog[k];
        ProgressNext(old(products), catalog, k, products, existing, nextId);
        forall ext
          ensures LastEntry(catalog[..k + 1], ext).Some? <==> ext == it.ext || LastEntry(catalog[..k], ext).Some?
        {
          LastEntryNext(catalog, k, ext);
        }
        seen := seen + {it.ext};
        existing := UpsertItem(existing, it);
      }
      assert catalog[..|catalog|] == catalog;
    }

    /** The second loop: switch off what was not seen. */
    method SwitchOffUnseen(existing: map<string, nat>, seen: set<string>)
      requires Indexed(products, existing)
      modifies this`products
      ensures products.Keys == old(products).Keys
      ensures forall id :: id in products ==>
                products[id] == if old(products)[id].ext.Some? && old(products)[id].ext.value !in seen
                                then old(products)[id].(active := false) else old(products)[id]
    {
      ghost var loaded := products;
      var rest := existing.Keys;
      while rest != {}
        invariant rest <= existing.Keys && products.Keys == loaded.Keys
        invariant forall id :: id in products ==>
                    products[id] == if loaded[id].ext.Some? && loaded[id].ext.value !in rest + seen
                                    then loaded[id].(active := false) else loaded[id]
      {
        var ext :| ext in rest;
        rest := rest - {ext};
        if ext !in seen { products := products[existing[ext] := products[existing[ext]].(active := false)]; }
      }
    }

    /** `_materialize_products` */
    method MaterializeProducts(catalog: seq<Item>)
      requires Valid()
      modifies this`products, this`nextId
      ensures Valid() && Upsert(old(products), catalog, true, products)
    {
      var existing, seen := LoadCatalog(catalog);
      ghost var loaded := products;
      SwitchOffUnseen(existing, seen);
      assert Switched(catalog, loaded, products);
      SwitchedKept(old(products), catalog, loaded, products);
      SwitchedAdded(old(products), catalog, loaded, products);
      SwitchedListed(catalog, loaded, products);
    }

    /** The part of `sync_catalog_from_hub` in the tenant's session, ending in the single commit of
        `upsert_snapshot`: an empty catalogue does not replace a filled snapshot. */
    method StoreCatalog(conn: nat, catalog: seq<Item>, commits: bool) returns (outcome: Outcome)
      requires Valid()
      modifies this
      ensures Valid()
      ensures outcome == if catalog == [] && conn in old(snapshots) && old(snapshots)[conn] != [] then EmptyRefused
                         else if commits then Synced else DatabaseError
      ensures outcome != Synced ==> products == old(products) && snapshots == old(snapshots)
      ensures outcome == Synced ==>
                Upsert(old(products), catalog, true, products) && snapshots == old(snapshots)[conn := catalog]
    {
      if catalog == [] && conn in snapshots && snapshots[conn] != [] { return EmptyRefused; }
      var saved := products;
      MaterializeProducts(catalog);
      if !commits {
        products := saved;
        return DatabaseError;
      }
      snapshots := snapshots[conn := catalog];
      outcome := Synced;
    }
  }

  // ---------------------------------------------------------------- results

  /** A second run with the same catalogue changes nothing. */
  lemma UpsertIdempotent(before: Products, catalog: seq<Item>, after: Products, again: Products)
    requires Upsert(before, catalog, true, after) && Upsert(after, catalog, true, again)
    ensures again == after
  {
    forall id | id in again ensures id in after {
      if again[id].ext.Some? && LastEntry(catalog, again[id].ext.value).Some? {
        assert HasExt(after, again[id].ext.value);
        var other :| other in after && after[other].ext == again[id].ext;
        assert again[other].ext == again[id].ext;
      }
    }
    forall id | id in after ensures again[id] == after[id] {
      if id in before {
        assert after[id] == Upserted(before[id], catalog, true);
      }
    }
  }

  /** The six fields that a catalogue entry prescribes. */
  predicate Matches(p: Product, it: Item) {
    && p.name == it.name && p.description == it.description && p.price == it.price && p.tax == it.tax
    && p.image == it.image && p.active == it.active
  }

  ghost predicate Listed(catalog: seq<Item>, ext: string) {
    exists i :: 0 <= i < |catalog| && catalog[i].ext == ext
  }

  /** The entry is the last one of the catalogue with this external id. */
  ghost predicate IsLast(catalog: seq<Item>, ext: string, it: Item) {
    exists i ::
      0 <= i < |catalog| && catalog[i] == it && it.ext == ext && forall j :: i < j < |catalog| ==> catalog[j].ext != ext
  }

  lemma {:induction false} LastEntryIsLast(catalog: seq<Item>, ext: string)
    ensures LastEntry(catalog, ext).Some? ==> IsLast(catalog, ext, LastEntry(catalog, ext).value)
    ensures LastEntry(catalog, ext).Some? <==> Listed(catalog, ext)
  {
    if catalog != [] {
      var front, last := catalog[..|catalog| - 1], catalog[|catalog| - 1];
      LastEntryIsLast(front, ext);
      if last.ext != ext && LastEntry(front, ext).Some? {
        var i :| 0 <= i < |front| && front[i] == LastEntry(front, ext).value
                 && forall j :: i < j < |front| ==> front[j].ext != ext;
        assert catalog[i] == front[i] && forall j :: i < j < |catalog| ==> catalog[j].ext != ext;
      }
    }
  }

  /** An upsert, product by product: a listed one takes the six fields of its last entry and keeps the
      rest; one listed no more only goes inactive; one without external id stays; and a new one has an
      external id of the catalogue and its last entry's fields. */
  lemma UpsertInDetail(before: Products, catalog: seq<Item>, after: Products, id: nat)
    requires Upsert(before, catalog, true, after) && id in after
    ensures after[id].ext.Some? && Listed(catalog, after[id].ext.value) ==>
              exists it :: IsLast(catalog, after[id].ext.value, it) && Matches(after[id], it)
    ensures id in before ==> after[id].ext == before[id].ext && after[id].local == before[id].local
    ensures id in before && before[id].ext.None? ==> after[id] == before[id]
    ensures id in before && before[id].ext.Some? && !Listed(catalog, before[id].ext.value) ==>
              after[id] == before[id].(active := false)
    ensures id !in before ==> after[id].ext.Some? && Listed(catalog, after[id].ext.value)
  {
    if id in before { assert after[id] == Upserted(before[id], catalog, true); }
    if after[id].ext.Some? {
      var ext := after[id].ext.value;
      LastEntryIsLast(catalog, ext);
      if LastEntry(catalog, ext).Some? {
        assert IsLast(catalog, ext, LastEntry(catalog, ext).value) && Matches(after[id], LastEntry(catalog, ext).value);
      }
    }
  }

  /** Exactly when a run synchronises. */
  lemma SyncedIff(snapshots: map<nat, seq<Item>>, conn: nat, run: Attempt)
    ensures Decide(snapshots, conn, run) == Synced <==>
              && run.active && run.configured && (run.lock.Some? ==> run.lock.value && run.rate)
              && run.catalog.Some? && run.commits
              && (run.catalog.value != [] || conn !in snapshots || snapshots[conn] == [])
  {
  }

  /** The synchronised products are what the catalogue prescribes. */
  ghost predicate Agrees(ps: Products, catalog: seq<Item>) {
    && (forall id :: id in ps && ps[id].ext.Some? ==>
          match LastEntry(catalog, ps[id].ext.value)
          case Some(it) => Matches(ps[id], it)
          case None => !ps[id].active)
    && AllListed(catalog, ps)
  }

  lemma UpsertAgrees(before: Products, catalog: seq<Item>, after: Products)
    requires Upsert(before, catalog, true, after)
    ensures Agrees(after, catalog)
  {
    forall id | id in after && after[id].ext.Some?
      ensures match LastEntry(catalog, after[id].ext.value)
              case Some(it) => Matches(after[id], it)
              case None => !after[id].active
    {
      if id in before { assert after[id] == Upserted(before[id], catalog, true); }
    }
  }

  /** Runs of the job one after the other, on any connections, from a tenant without snapshots. */
  ghost predicate History(vs: seq<View>, conns: seq<nat>, runs: seq<Attempt>) {
    && |vs| == |runs| + 1 && |conns| == |runs|
    && UniqueExt(vs[0].products) && vs[0].snapshots == map[]
    && forall i :: 0 <= i < |runs| ==> SyncStep(vs[i], conns[i], runs[i], vs[i + 1])
  }

  ghost predicate SyncedAt(vs: seq<View>, conns: seq<nat>, runs: seq<Attempt>, i: nat)
    requires History(vs, conns, runs) && i < |runs|
  {
    Decide(vs[i].snapshots, conns[i], runs[i]) == Synced
  }

  /** After the last success, whatever failed since, the products are those of the snapshot it
      committed. */
  lemma {:induction false} LastSuccessStands(vs: seq<View>, conns: seq<nat>, runs: seq<Attempt>, k: nat, n: nat)
    requires History(vs, conns, runs) && k < n <= |runs| && SyncedAt(vs, conns, runs, k)
    requires forall i :: k < i < n ==> !SyncedAt(vs, conns, runs, i)
    ensures runs[k].catalog.Some? && conns[k] in vs[n].snapshots && vs[n].snapshots[conns[k]] == runs[k].catalog.value
    ensures Agrees(vs[n].products, runs[k].catalog.value)
  {
    if n == k + 1 {
      assert SyncStep(vs[k], conns[k], runs[k], vs[n]);
      UpsertAgrees(vs[k].products, runs[k].catalog.value, vs[n].products);
    } else {
      LastSuccessStands(vs, conns, runs, k, n - 1);
      assert !SyncedAt(vs, conns, runs, n - 1);
      assert SyncStep(vs[n - 1], conns[n - 1], runs[n - 1], vs[n]);
    }
  }

  /** A tenant with one connection: products and committed snapshot always agree. */
  lemma {:induction false} SnapshotAgrees(vs: seq<View>, conns: seq<nat>, runs: seq<Attempt>, conn: nat, n: nat)
    requires History(vs, conns, runs) && n < |vs| && forall i :: 0 <= i < |conns| ==> conns[i] == conn
    ensures conn in vs[n].snapshots ==> Agrees(vs[n].products, vs[n].snapshots[conn])
  {
    if n > 0 {
      SnapshotAgrees(vs, conns, runs, conn, n - 1);
      assert SyncStep(vs[n - 1], conns[n - 1], runs[n - 1], vs[n]);
      if SyncedAt(vs, conns, runs, n - 1) {
        UpsertAgrees(vs[n - 1].products, runs[n - 1].catalog.value, vs[n].products);
      }
    }
  }

  /** A snapshot that is not empty never becomes empty again. */
  lemma {:induction false} SnapshotStaysFilled(vs: seq<View>, conns: seq<nat>, runs: seq<Attempt>, conn: nat,
                                               m: nat, n: nat)
    requires History(vs, conns, runs) && m <= n < |vs| && conn in vs[m].snapshots && vs[m].snapshots[conn] != []
    ensures conn in vs[n].snapshots && vs[n].snapshots[conn] != []
  {
    if m < n {
      SnapshotStaysFilled(vs, conns, runs, conn, m, n - 1);
      assert SyncStep(vs[n - 1], conns[n - 1], runs[n - 1], vs[n]);
    }
  }

  // ---------------------------------------------------------------- two connections

  /** Two catalogues prescribe the same for an external id; not being listed prescribes inactive. */
  predicate Compatible(first: seq<Item>, second: seq<Item>, ext: string) {
    match (LastEntry(first, ext), LastEntry(second, ext))
    case (None, None) => true
    case (Some(a), None) => !a.active
    case (None, Some(b)) => !b.active
    case (Some(a), Some(b)) => a == b
  }

  lemma {:induction false} LastEntryExt(catalog: seq<Item>, ext: string)
    ensures LastEntry(catalog, ext).Some? ==> LastEntry(catalog, ext).value.ext == ext
  {
    if catalog != [] { LastEntryExt(catalog[..|catalog| - 1], ext); }
  }

  /** What the first catalogue asks of one product after the second was upserted. */
  ghost predicate Fits(p: Product, catalog: seq<Item>) {
    p.ext.Some? ==>
      match LastEntry(catalog, p.ext.value)
      case Some(it) => Matches(p, it)
      case None => !p.active
  }

  /** A product upserted from the second catalogue fits the first one if and only if both prescribe
      the same for it. */
  lemma UpsertedFits(first: seq<Item>, second: seq<Item>, p: Product)
    requires p.ext.Some? && Fits(p, first)
    ensures Fits(Upserted(p, second, true), first) <==> Compatible(first, second, p.ext.value)
  {
    LastEntryExt(first, p.ext.value);
    LastEntryExt(second, p.ext.value);
  }

  lemma AddedFits(first: seq<Item>, second: seq<Item>, ext: string)
    requires LastEntry(first, ext).None? && LastEntry(second, ext).Some?
    ensures Fits(Overlay(Fresh(ext), LastEntry(second, ext).value), first) <==> Compatible(first, second, ext)
  {
  }

  /** An external id stays with its row. */
  lemma ExtKeepsRow(before: Products, second: seq<Item>, after: Products, id: nat)
    requires Upsert(before, second, true, after) && id in after && after[id].ext.Some?
    requires HasExt(before, after[id].ext.value)
    ensures id in before && after[id] == Upserted(before[id], second, true)
  {
    var other :| other in before && before[other].ext == after[id].ext;
    assert after[other].ext == after[id].ext;
  }

  /** The product that stands for a listed id after the upsert. */
  lemma FitsIffCompatible(before: Products, first: seq<Item>, second: seq<Item>, after: Products, id: nat)
    requires Agrees(before, first) && Upsert(before, second, true, after) && id in after && after[id].ext.Some?
    ensures Fits(after[id], first) <==> Compatible(first, second, after[id].ext.value)
  {
    var ext := after[id].ext.value;
    if HasExt(before, ext) {
      ExtKeepsRow(before, second, after, id);
      assert before[id].ext == after[id].ext && Fits(before[id], first);
      UpsertedFits(first, second, before[id]);
    } else {
      AddedFits(first, second, ext);
    }
  }

  /** With two connections: after the second one's catalogue the products still agree with the first
      one's snapshot if and only if the two catalogues prescribe the same for every external id. */
  lemma SecondConnectionAgreesIff(before: Products, first: seq<Item>, second: seq<Item>, after: Products)
    requires Agrees(before, first) && Upsert(before, second, true, after)
    ensures Agrees(after, first) <==> forall ext :: Compatible(first, second, ext)
  {
    forall id | id in after && after[id].ext.Some?
      ensures Fits(after[id], first) <==> Compatible(first, second, after[id].ext.value)
    {
      FitsIffCompatible(before, first, second, after, id);
    }
    forall ext | LastEntry(first, ext).Some? ensures HasExt(after, ext) {
      assert HasExt(before, ext);
      var id :| id in before && before[id].ext == Some(ext);
      assert after[id].ext == Some(ext);
    }
    forall ext | Agrees(after, first) ensures Compatible(first, second, ext) {
      if LastEntry(first, ext).Some? || LastEntry(second, ext).Some? {
        assert HasExt(after, ext);
        var id :| id in after && after[id].ext == Some(ext);
        assert Fits(after[id], first);
      }
    }
    if forall ext :: Compatible(first, second, ext) {
      forall id | id in after && after[id].ext.Some? ensures Fits(after[id], first) {
        assert Compatible(first, second, after[id].ext.value);
      }
    }
  }

  /** Two catalogues that list one id at different prices: whatever the tenant's products were,
      after both upserts they agree with the second catalogue and not with the first. */
  lemma PricesClash(before: Products, mid: Products, after: Products)
    requires var item := Item("tea", "Tea", None, 3.0, None, None, true);
             Upsert(before, [item], true, mid) && Upsert(mid, [item.(price := 4.0)], true, after)
    ensures var item := Item("tea", "Tea", None, 3.0, None, None, true);
            !Agrees(after, [item]) && Agrees(after, [item.(price := 4.0)])
  {
    var item := Item("tea", "Tea", None, 3.0, None, None, true);
    var dear := item.(price := 4.0);
    UpsertAgrees(before, [item], mid);
    UpsertAgrees(mid, [dear], after);
    SecondConnectionAgreesIff(mid, [item], [dear], after);
    assert !Compatible([item], [dear], "tea");
  }
}
