/** The read-only audit of tenant schemas (tools/audit_tenant_schemas.py). */
module Audit {

  import opened Slugs

  datatype TenantRow = TenantRow(id: int, slug: string, name: string)

  /** Orphans and incomplete schemas are kept as a set and a map: the audit only sorts them. */
  datatype Report = Report(
    totalTenants: nat,
    totalSchemas: nat,
    longSlugs: seq<TenantRow>,
    collisions: seq<seq<TenantRow>>,
    missingSchema: seq<TenantRow>,
    orphans: set<string>,
    incomplete: map<string, set<string>>)

  predicate HasIssues(r: Report) {
    r.longSlugs != [] || r.collisions != [] || r.missingSchema != [] || r.orphans != {} || r.incomplete != map[]
  }

  function Physical(t: TenantRow): string {
    ExpectedPhysicalSchema(t.slug)
  }

  // ---------------------------------------------------------------- reference definition

  function LongSlugs(ts: seq<TenantRow>): seq<TenantRow> {
    if ts == [] then []
    else LongSlugs(ts[..|ts| - 1]) + if |ts[|ts| - 1].slug| > MAX_NEW_SLUG then [ts[|ts| - 1]] else []
  }

  function WithoutSchema(ts: seq<TenantRow>, existing: set<string>): seq<TenantRow> {
    if ts == [] then []
    else
      WithoutSchema(ts[..|ts| - 1], existing)
      + if Physical(ts[|ts| - 1]) !in existing then [ts[|ts| - 1]] else []
  }

  /** The rows stored under one physical schema, in table order. */
  function Group(ts: seq<TenantRow>, schema: string): seq<TenantRow> {
    if ts == [] then []
    else Group(ts[..|ts| - 1], schema) + if Physical(ts[|ts| - 1]) == schema then [ts[|ts| - 1]] else []
  }

  /** The physical schemas in order of first appearance. */
  function Schemas(ts: seq<TenantRow>): seq<string> {
    if ts == [] then []
    else
      var front := Schemas(ts[..|ts| - 1]);
      if Physical(ts[|ts| - 1]) in front then front else front + [Physical(ts[|ts| - 1])]
  }

  function SharedGroups(ts: seq<TenantRow>, schemas: seq<string>): seq<seq<TenantRow>> {
    if schemas == [] then []
    else
      SharedGroups(ts, schemas[..|schemas| - 1])
      + var g := Group(ts, schemas[|schemas| - 1]); if |g| > 1 then [g] else []
  }

  function Incomplete(expected: set<string>, existing: set<string>, tables: map<string, set<string>>)
    : map<string, set<string>>
  {
    map s | s in existing && s in tables && expected - tables[s] != {} :: expected - tables[s]
  }

  function ReportOf(expected: set<string>, ts: seq<TenantRow>, existing: set<string>,
                    tables: map<string, set<string>>): Report
  {
    Report(|ts|, |existing|, LongSlugs(ts), SharedGroups(ts, Schemas(ts)), WithoutSchema(ts, existing),
           existing - (set s | s in Schemas(ts)), Incomplete(expected, existing, tables))
  }

  // ---------------------------------------------------------------- build_report

  /** The dictionary of tenants by physical schema, with its keys in insertion order. */
  method GroupTenants(tenants: seq<TenantRow>) returns (groups: map<string, seq<TenantRow>>, keys: seq<string>)
    ensures keys == Schemas(tenants) && (forall s :: s in groups <==> s in keys)
    ensures forall s :: s in groups ==> groups[s] == Group(tenants, s)
  {
    groups, keys := map[], [];
    for i := 0 to |tenants|
      invariant keys == Schemas(tenants[..i]) && (forall s :: s in groups <==> s in keys)
      invariant forall s :: s in groups ==> groups[s] == Group(tenants[..i], s)
    {
      var t := tenants[i];
      assert tenants[..i + 1][..i] == tenants[..i];
      GroupOfAbsent(tenants[..i], Physical(t));
      if Physical(t) !in groups {
        groups := groups[Physical(t) := []];
        keys := keys + [Physical(t)];
      }
      groups := groups[Physical(t) := groups[Physical(t)] + [t]];
    }
    assert tenants[..|tenants|] == tenants;
  }

  /** The schemas with missing tables, among those whose tables are known. */
  method FindIncomplete(expected: set<string>, existing: set<string>, tables: map<string, set<string>>)
    returns (incomplete: map<string, set<string>>)
    ensures incomplete == Incomplete(expected, existing, tables)
  {
    incomplete := map[];
    var rest := existing;
    while rest != {}
      invariant rest <= existing
      invariant incomplete == Incomplete(expected, existing - rest, tables)
    {
      var s :| s in rest;
      rest := rest - {s};
      if s in tables {
        var absent := expected - tables[s];
        if absent != {} { incomplete := incomplete[s := absent]; }
      }
    }
    assert existing - rest == existing;
  }

  /** `build_report` */
  method BuildReport(expected: set<string>, tenants: seq<TenantRow>, existing: set<string>,
                     tables: map<string, set<string>>) returns (r: Report)
    ensures r == ReportOf(expected, tenants, existing, tables)
  {
    var groups, keys := GroupTenants(tenants);
    var shared: seq<seq<TenantRow>> := [];
    for i := 0 to |keys|
      invariant shared == SharedGroups(tenants, keys[..i])
    {
      assert keys[..i + 1][..i] == keys[..i];
      if |groups[keys[i]]| > 1 { shared := shared + [groups[keys[i]]]; }
    }
    assert keys[..|keys|] == keys;
    var incomplete := FindIncomplete(expected, existing, tables);
    assert groups.Keys == set s | s in keys;
    r := Report(|tenants|, |existing|, LongSlugs(tenants), shared, WithoutSchema(tenants, existing),
                existing - groups.Keys, incomplete);
  }

  lemma {:induction false} GroupOfAbsent(ts: seq<TenantRow>, schema: string)
    ensures schema in Schemas(ts) <==> Group(ts, schema) != []
  {
    if ts != [] {
      GroupOfAbsent(ts[..|ts| - 1], schema);
    }
  }

  // ---------------------------------------------------------------- what a clean report means

  ghost predicate ShortSlugs(ts: seq<TenantRow>) {
    forall i :: 0 <= i < |ts| ==> |ts[i].slug| <= MAX_NEW_SLUG
  }

  /** Rows and physical schemas correspond one to one. */
  ghost predicate Bijective(ts: seq<TenantRow>, existing: set<string>) {
    && (forall i :: 0 <= i < |ts| ==> Physical(ts[i]) in existing)
    && (forall i, j :: 0 <= i < j < |ts| ==> Physical(ts[i]) != Physical(ts[j]))
    && (forall s :: s in existing ==> exists i :: 0 <= i < |ts| && Physical(ts[i]) == s)
  }

  ghost predicate Complete(expected: set<string>, existing: set<string>, tables: map<string, set<string>>) {
    forall s :: s in existing && s in tables ==> expected <= tables[s]
  }

  lemma {:induction false} NoLongSlugs(ts: seq<TenantRow>)
    ensures LongSlugs(ts) == [] <==> ShortSlugs(ts)
  {
    if ts != [] {
      var front := ts[..|ts| - 1];
      NoLongSlugs(front);
      if ShortSlugs(ts) { assert forall i :: 0 <= i < |front| ==> front[i] == ts[i]; }
      if LongSlugs(ts) == [] {
        forall i | 0 <= i < |ts| ensures |ts[i].slug| <= MAX_NEW_SLUG {
          if i < |front| { assert front[i] == ts[i]; }
        }
      }
    }
  }

  lemma {:induction false} NoneMissing(ts: seq<TenantRow>, existing: set<string>)
    ensures WithoutSchema(ts, existing) == [] <==> forall i :: 0 <= i < |ts| ==> Physical(ts[i]) in existing
  {
    if ts != [] {
      var front := ts[..|ts| - 1];
      NoneMissing(front, existing);
      assert forall i :: 0 <= i < |front| ==> front[i] == ts[i];
      if WithoutSchema(ts, existing) == [] {
        forall i | 0 <= i < |ts| ensures Physical(ts[i]) in existing {
          if i < |front| { assert front[i] == ts[i]; }
        }
      }
    }
  }

  lemma {:induction false} SchemasAreImages(ts: seq<TenantRow>, s: string)
    ensures s in Schemas(ts) <==> exists i :: 0 <= i < |ts| && Physical(ts[i]) == s
  {
    if ts != [] {
      var front := ts[..|ts| - 1];
      SchemasAreImages(front, s);
      assert forall i :: 0 <= i < |front| ==> front[i] == ts[i];
      if exists i :: 0 <= i < |ts| && Physical(ts[i]) == s {
        var i :| 0 <= i < |ts| && Physical(ts[i]) == s;
        if i < |front| { assert Physical(front[i]) == s; }
      }
      if s in Schemas(ts) {
        if s in Schemas(front) {
          var i :| 0 <= i < |front| && Physical(front[i]) == s;
          assert Physical(ts[i]) == s;
        } else {
          assert Physical(ts[|ts| - 1]) == s;
        }
      }
    }
  }

  lemma {:induction false} GroupSize(ts: seq<TenantRow>, s: string)
    ensures |Group(ts, s)| > 1 <==> exists i, j :: 0 <= i < j < |ts| && Physical(ts[i]) == s && Physical(ts[j]) == s
  {
    var idx := GroupAre(ts, s);
    if |idx| > 1 {
      assert idx[0] in idx && idx[1] in idx;
      assert IsUnder(ts, s)(idx[0]) && IsUnder(ts, s)(idx[1]);
    }
    if i, j :| 0 <= i < j < |ts| && Physical(ts[i]) == s && Physical(ts[j]) == s {
      assert i in idx && j in idx;
    }
  }

  lemma {:induction false} NoSharedGroups(ts: seq<TenantRow>, schemas: seq<string>)
    ensures SharedGroups(ts, schemas) == [] <==> forall i :: 0 <= i < |schemas| ==> |Group(ts, schemas[i])| <= 1
  {
    if schemas != [] {
      var front, last := schemas[..|schemas| - 1], schemas[|schemas| - 1];
      NoSharedGroups(ts, front);
      assert forall i :: 0 <= i < |front| ==> front[i] == schemas[i];
      var tail := if |Group(ts, last)| > 1 then [Group(ts, last)] else [];
      assert SharedGroups(ts, schemas) == SharedGroups(ts, front) + tail;
      if SharedGroups(ts, schemas) == [] {
        assert SharedGroups(ts, front) == [] && tail == [];
        forall i | 0 <= i < |schemas| ensures |Group(ts, schemas[i])| <= 1 {
          if i < |front| { assert front[i] == schemas[i]; }
        }
      }
    }
  }

  lemma NoCollisions(ts: seq<TenantRow>)
    ensures SharedGroups(ts, Schemas(ts)) == [] <==>
              forall i, j :: 0 <= i < j < |ts| ==> Physical(ts[i]) != Physical(ts[j])
  {
    NoSharedGroups(ts, Schemas(ts));
    if SharedGroups(ts, Schemas(ts)) == [] {
      forall i, j | 0 <= i < j < |ts| ensures Physical(ts[i]) != Physical(ts[j]) {
        GroupSize(ts, Physical(ts[i]));
        SchemasAreImages(ts, Physical(ts[i]));
      }
    }
    if forall i, j :: 0 <= i < j < |ts| ==> Physical(ts[i]) != Physical(ts[j]) {
      forall s | s in Schemas(ts) ensures |Group(ts, s)| <= 1 {
        GroupSize(ts, s);
      }
    }
  }

  lemma NoOrphans(ts: seq<TenantRow>, existing: set<string>)
    ensures existing - (set s | s in Schemas(ts)) == {} <==>
              forall s :: s in existing ==> exists i :: 0 <= i < |ts| && Physical(ts[i]) == s
  {
    var orphans := existing - (set s | s in Schemas(ts));
    forall s ensures s in orphans <==> s in existing && !exists i :: 0 <= i < |ts| && Physical(ts[i]) == s {
      SchemasAreImages(ts, s);
    }
  }

  lemma NoneIncomplete(expected: set<string>, existing: set<string>, tables: map<string, set<string>>)
    ensures Incomplete(expected, existing, tables) == map[] <==> Complete(expected, existing, tables)
  {
    var m := Incomplete(expected, existing, tables);
    forall s | s in existing && s in tables ensures s in m <==> !(expected <= tables[s]) {
      forall x | x in expected ensures x in expected - tables[s] <==> x !in tables[s] {}
    }
    if Complete(expected, existing, tables) { assert m.Keys == {}; }
  }

  // ---------------------------------------------------------------- what each list holds

  /** Positions in order, and exactly those that count; `out` lists what stands there. */
  ghost predicate Enumerates<T>(n: nat, out: seq<T>, idx: seq<nat>, wanted: nat -> bool, at: nat -> T) {
    && (forall k :: 0 <= k < |idx| ==> idx[k] < n)
    && (forall k, l :: 0 <= k < l < |idx| ==> idx[k] < idx[l])
    && (forall i: nat :: i < n ==> (i in idx <==> wanted(i)))
    && |out| == |idx| && (forall k :: 0 <= k < |idx| ==> out[k] == at(idx[k]))
  }

  function Collect<T>(n: nat, wanted: nat -> bool, at: nat -> T): seq<T> {
    if n == 0 then [] else Collect(n - 1, wanted, at) + if wanted(n - 1) then [at(n - 1)] else []
  }

  lemma EnumeratesNext<T>(n: nat, out: seq<T>, idx: seq<nat>, wanted: nat -> bool, at: nat -> T)
    requires Enumerates(n, out, idx, wanted, at)
    ensures wanted(n) ==> Enumerates(n + 1, out + [at(n)], idx + [n], wanted, at)
    ensures !wanted(n) ==> Enumerates(n + 1, out, idx, wanted, at)
  {
    assert n !in idx;
  }

  lemma {:induction false} CollectEnumerates<T>(n: nat, wanted: nat -> bool, at: nat -> T) returns (idx: seq<nat>)
    ensures Enumerates(n, Collect(n, wanted, at), idx, wanted, at)
  {
    if n == 0 {
      idx := [];
    } else {
      idx := CollectEnumerates(n - 1, wanted, at);
      EnumeratesNext(n - 1, Collect(n - 1, wanted, at), idx, wanted, at);
      if wanted(n - 1) { idx := idx + [n - 1]; }
    }
  }

  function RowAt(ts: seq<TenantRow>): nat -> TenantRow {
    (i: nat) => if i < |ts| then ts[i] else TenantRow(0, "", "")
  }

  function SchemaAt(ts: seq<TenantRow>): nat -> string {
    (i: nat) => if i < |ts| then Physical(ts[i]) else ""
  }

  function GroupAt(ts: seq<TenantRow>, schemas: seq<string>): nat -> seq<TenantRow> {
    (k: nat) => if k < |schemas| then Group(ts, schemas[k]) else []
  }

  function IsLong(ts: seq<TenantRow>): nat -> bool {
    (i: nat) => i < |ts| && |ts[i].slug| > 56
  }

  function IsMissing(ts: seq<TenantRow>, existing: set<string>): nat -> bool {
    (i: nat) => i < |ts| && Physical(ts[i]) !in existing
  }

  function IsUnder(ts: seq<TenantRow>, schema: string): nat -> bool {
    (i: nat) => i < |ts| && Physical(ts[i]) == schema
  }

  /** The schema of row i is named there for the first time. */
  function IsFirst(ts: seq<TenantRow>): nat -> bool {
    (i: nat) => i < |ts| && forall j :: 0 <= j < i ==> Physical(ts[j]) != Physical(ts[i])
  }

  function IsShared(ts: seq<TenantRow>, schemas: seq<string>): nat -> bool {
    (k: nat) => k < |schemas| && |Group(ts, schemas[k])| > 1
  }

  lemma {:induction false} LongSlugsCollect(ts: seq<TenantRow>, n: nat)
    requires n <= |ts|
    ensures LongSlugs(ts[..n]) == Collect(n, IsLong(ts), RowAt(ts))
  {
    if n > 0 {
      LongSlugsCollect(ts, n - 1);
      assert ts[..n][..n - 1] == ts[..n - 1];
    }
  }

  lemma {:induction false} MissingCollect(ts: seq<TenantRow>, existing: set<string>, n: nat)
    requires n <= |ts|
    ensures WithoutSchema(ts[..n], existing) == Collect(n, IsMissing(ts, existing), RowAt(ts))
  {
    if n > 0 {
      MissingCollect(ts, existing, n - 1);
      assert ts[..n][..n - 1] == ts[..n - 1];
    }
  }

  lemma {:induction false} GroupCollect(ts: seq<TenantRow>, schema: string, n: nat)
    requires n <= |ts|
    ensures Group(ts[..n], schema) == Collect(n, IsUnder(ts, schema), RowAt(ts))
  {
    if n > 0 {
      GroupCollect(ts, schema, n - 1);
      assert ts[..n][..n - 1] == ts[..n - 1];
    }
  }

  lemma FirstIsNew(ts: seq<TenantRow>, n: nat)
    requires n < |ts|
    ensures IsFirst(ts)(n) <==> Physical(ts[n]) !in Schemas(ts[..n])
  {
    SchemasAreImages(ts[..n], Physical(ts[n]));
    if !IsFirst(ts)(n) {
      var j :| 0 <= j < n && Physical(ts[j]) == Physical(ts[n]);
      assert ts[..n][j] == ts[j];
    }
  }

  lemma {:induction false} SchemasCollect(ts: seq<TenantRow>, n: nat)
    requires n <= |ts|
    ensures Schemas(ts[..n]) == Collect(n, IsFirst(ts), SchemaAt(ts))
  {
    if n > 0 {
      SchemasCollect(ts, n - 1);
      assert ts[..n][..n - 1] == ts[..n - 1];
      FirstIsNew(ts, n - 1);
    }
  }

  lemma {:induction false} SharedCollect(ts: seq<TenantRow>, schemas: seq<string>, n: nat)
    requires n <= |schemas|
    ensures SharedGroups(ts, schemas[..n]) == Collect(n, IsShared(ts, schemas), GroupAt(ts, schemas))
  {
    if n > 0 {
      SharedCollect(ts, schemas, n - 1);
      assert schemas[..n][..n - 1] == schemas[..n - 1];
    }
  }

  /** A group holds exactly the rows stored under its schema, in table order. */
  lemma GroupAre(ts: seq<TenantRow>, schema: string) returns (idx: seq<nat>)
    ensures Enumerates(|ts|, Group(ts, schema), idx, IsUnder(ts, schema), RowAt(ts))
  {
    idx := CollectEnumerates(|ts|, IsUnder(ts, schema), RowAt(ts));
    GroupCollect(ts, schema, |ts|);
    assert ts[..|ts|] == ts;
  }

  /** The schemas are listed in the order of the rows that name them first. */
  lemma SchemasAre(ts: seq<TenantRow>) returns (idx: seq<nat>)
    ensures Enumerates(|ts|, Schemas(ts), idx, IsFirst(ts), SchemaAt(ts))
  {
    idx := CollectEnumerates(|ts|, IsFirst(ts), SchemaAt(ts));
    SchemasCollect(ts, |ts|);
    assert ts[..|ts|] == ts;
  }

  /** The lists of the report, row by row and group by group: the rows with a slug of more than 56
      characters, the rows whose schema does not exist, and the groups of more than one row in the
      order of their schemas. */
  lemma ReportLists(expected: set<string>, ts: seq<TenantRow>, existing: set<string>, tables: map<string, set<string>>)
    returns (long: seq<nat>, missing: seq<nat>, shared: seq<nat>)
    ensures var r := ReportOf(expected, ts, existing, tables);
            && Enumerates(|ts|, r.longSlugs, long, IsLong(ts), RowAt(ts))
            && Enumerates(|ts|, r.missingSchema, missing, IsMissing(ts, existing), RowAt(ts))
            && Enumerates(|Schemas(ts)|, r.collisions, shared, IsShared(ts, Schemas(ts)), GroupAt(ts, Schemas(ts)))
  {
    var schemas := Schemas(ts);
    assert ts[..|ts|] == ts && schemas[..|schemas|] == schemas;
    long := CollectEnumerates(|ts|, IsLong(ts), RowAt(ts));
    missing := CollectEnumerates(|ts|, IsMissing(ts, existing), RowAt(ts));
    shared := CollectEnumerates(|schemas|, IsShared(ts, schemas), GroupAt(ts, schemas));
    LongSlugsCollect(ts, |ts|);
    MissingCollect(ts, existing, |ts|);
    SharedCollect(ts, schemas, |schemas|);
  }

  /** The rest of the report: the totals, the schemas no row names, and for each known schema that
      lacks a table exactly the tables it lacks. */
  lemma ReportHolds(expected: set<string>, ts: seq<TenantRow>, existing: set<string>, tables: map<string, set<string>>)
    ensures var r := ReportOf(expected, ts, existing, tables);
            && r.totalTenants == |ts| && r.totalSchemas == |existing|
            && (forall s :: s in r.orphans <==> s in existing && forall i :: 0 <= i < |ts| ==> Physical(ts[i]) != s)
            && (forall s :: s in r.incomplete <==> s in existing && s in tables && !(expected <= tables[s]))
            && (forall s :: s in r.incomplete ==> r.incomplete[s] == expected - tables[s])
  {
    forall s ensures s in Schemas(ts) <==> exists i :: 0 <= i < |ts| && Physical(ts[i]) == s {
      SchemasAreImages(ts, s);
    }
    forall s | s in existing && s in tables ensures expected - tables[s] != {} <==> !(expected <= tables[s]) {
      if x :| x in expected && x !in tables[s] { assert x in expected - tables[s]; }
      if x :| x in expected - tables[s] { assert x in expected && x !in tables[s]; }
    }
  }

  /** The report is clean exactly when slugs are short, rows and schemas are in bijection and
      every schema whose table set was supplied is complete. */
  lemma CleanReport(expected: set<string>, ts: seq<TenantRow>, existing: set<string>, tables: map<string, set<string>>)
    ensures !HasIssues(ReportOf(expected, ts, existing, tables)) <==>
              ShortSlugs(ts) && Bijective(ts, existing) && Complete(expected, existing, tables)
  {
    NoLongSlugs(ts);
    NoneMissing(ts, existing);
    NoCollisions(ts);
    NoOrphans(ts, existing);
    NoneIncomplete(expected, existing, tables);
  }

  // ---------------------------------------------------------------- the audit of a database

  /** What `_fetch_tenant_schema_tables` returns: `information_schema.tables` has no row, hence
      the dictionary no entry, for a schema without tables. */
  function FetchedTables(content: map<string, set<string>>): map<string, set<string>> {
    map s | s in content && content[s] != {} :: content[s]
  }

  /** `run_audit` on a database with these rows and these schemas. */
  function RunAudit(expected: set<string>, ts: seq<TenantRow>, content: map<string, set<string>>): Report {
    ReportOf(expected, ts, content.Keys, FetchedTables(content))
  }

  /** The whole audit is clean exactly when slugs are short, the map is a bijection and every
      schema that has any table at all has all of them. */
  lemma CleanAudit(expected: set<string>, ts: seq<TenantRow>, content: map<string, set<string>>)
    ensures !HasIssues(RunAudit(expected, ts, content)) <==>
              && ShortSlugs(ts) && Bijective(ts, content.Keys)
              && forall s :: s in content ==> content[s] == {} || expected <= content[s]
  {
    CleanReport(expected, ts, content.Keys, FetchedTables(content));
    var f := FetchedTables(content);
    if Complete(expected, content.Keys, f) {
      forall s | s in content ensures content[s] == {} || expected <= content[s] {
        assert content[s] != {} ==> s in f;
      }
    }
  }

  /** An existing but completely empty schema is not reported as incomplete. */
  lemma EmptySchemaGoesUnreported(expected: set<string>)
    requires expected != {}
    ensures exists ts, content :: (exists s :: s in content && !(expected <= content[s]))
              && !HasIssues(RunAudit(expected, ts, content))
  {
    var ts := [TenantRow(1, "a", "A")];
    var none: set<string> := {};
    var content := map[Physical(ts[0]) := none];
    CleanAudit(expected, ts, content);
    assert Physical(ts[0]) in content && !(expected <= content[Physical(ts[0])]);
    assert Bijective(ts, content.Keys);
  }
}
