/** Isolation of tenants down to the schemas PostgreSQL finds: the pool's guarantee joined with the
    cutting of identifiers (app/core/database/session.py). */
module TenantIsolation {

  import opened Common
  import opened Slugs
  import SearchPath

  /** Entry i of the log is a statement of a session opened for the tenant. */
  ghost predicate RanFor(log: seq<SearchPath.Entry>, i: nat, slug: string) {
    i < |log| && TenantPath(slug).Ok? && log[i].info == Some(TenantPath(slug).value)
  }

  /** Whatever the interleaving, a tenant's statement runs in the tenant's physical schema. */
  lemma StatementReachesOwnSchema(es: seq<SearchPath.Event>, i: nat, slug: string)
    requires SearchPath.Run(SearchPath.INSTALLED, SearchPath.INIT, es).Some?
    requires RanFor(SearchPath.Run(SearchPath.INSTALLED, SearchPath.INIT, es).value.log, i, slug)
    ensures var log := SearchPath.Run(SearchPath.INSTALLED, SearchPath.INIT, es).value.log;
            SchemaReached(log[i].path) == ExpectedPhysicalSchema(slug)
  {
    SearchPath.PooledRefinesPrivate(es);
    PathReachesSchema(slug);
  }

  /** Statements of two tenants ran in different schemas if and only if the tenants' slugs differ
      within their first 56 characters; for slugs valid for creation, if and only if they differ. */
  lemma TenantsApartIff(es: seq<SearchPath.Event>, i: nat, j: nat, a: string, b: string)
    requires SearchPath.Run(SearchPath.INSTALLED, SearchPath.INIT, es).Some?
    requires var log := SearchPath.Run(SearchPath.INSTALLED, SearchPath.INIT, es).value.log;
             RanFor(log, i, a) && RanFor(log, j, b)
    ensures var log := SearchPath.Run(SearchPath.INSTALLED, SearchPath.INIT, es).value.log;
            && (SchemaReached(log[i].path) != SchemaReached(log[j].path) <==>
                  Take(a, MAX_NEW_SLUG) != Take(b, MAX_NEW_SLUG))
            && (CreationSlug(a) && CreationSlug(b) ==>
                  (SchemaReached(log[i].path) != SchemaReached(log[j].path) <==> a != b))
  {
    StatementReachesOwnSchema(es, i, a);
    StatementReachesOwnSchema(es, j, b);
    SlugIsAscii(a);
    SlugIsAscii(b);
    AsciiCollisions(a, b);
  }

  /** Two tenants that may be looked up but not created, and that share a schema. */
  lemma LongSlugsShareSchema()
    ensures exists a, b :: a != b && TenantPath(a).Ok? && TenantPath(b).Ok?
              && SchemaReached(TenantPath(a).value) == SchemaReached(TenantPath(b).value)
  {
    var a, b := SharingSlugs();
    PathReachesSchema(a);
    PathReachesSchema(b);
  }
}
