/** Atomic tenant provisioning (app/core/tenancy/provisioning.py, app/core/tenancy/tenant.py)
    and its agreement with the audit. */
module Provisioning {

  import opened Common
  import opened Slugs
  import Audit

  // ---------------------------------------------------------------- data

  /** A user row, with the slug of the provisioning that inserted it. */
  datatype User = User(email: string, role: string, origin: string)

  datatype Schema = Schema(
    tables: set<string>, establishments: set<nat>, hrConfigs: set<nat>, operations: set<nat>, allergensSeeded: bool,
    users: seq<User>)

  const EMPTY_SCHEMA := Schema({}, {}, {}, {}, false, [])

  datatype Tenant = Tenant(slug: string, name: string, plan: string)

  /** Everything a transaction can change, `public.users` included. */
  datatype Db = Db(tenants: map<int, Tenant>, schemas: map<string, Schema>, publicUsers: seq<User>, auditLog: seq<int>)

  /** The database and the id sequence, which PostgreSQL does not roll back. */
  datatype Cluster = Cluster(db: Db, nextTenant: int)

  datatype AdminFields = AdminFields(email: string, role: Option<string>)

  /** `audited`: the caller passes an `on_provisioned` callback that writes an audit row. */
  datatype Request = Request(slug: string, name: string, plan: string, admin: Option<AdminFields>, audited: bool)

  datatype ProvisionError = TenantExists | InvalidTenantSlug | SchemaCollision | Unexpected

  datatype Provisioned = Provisioned(tenantId: int, slug: string, hasAdmin: bool)

  const PUBLIC := "public"

  /** The tables into which provisioning itself inserts rows. */
  const WRITTEN_TABLES := {"users", "establishments", "establishment_hr_config", "establishment_operations"}

  predicate SlugTaken(db: Db, slug: string) {
    exists id :: id in db.tenants && db.tenants[id].slug == slug
  }

  function AdminRow(req: Request): seq<User> {
    match req.admin
    case None => []
    case Some(f) => [User(f.email, if f.role.Some? then f.role.value else "admin", req.slug)]
  }

  // ---------------------------------------------------------------- atomic specification

  /** Nothing stands in the way: the slug is free and well formed, the physical schema unused. */
  ghost predicate CanProvision(db: Db, slug: string) {
    !SlugTaken(db, slug) && LookupSlug(slug) && ExpectedPhysicalSchema(slug) !in db.schemas
  }

  /** The whole effect at once. */
  function FullEffect(expected: set<string>, db: Db, id: int, req: Request): Db {
    Db(db.tenants[id := Tenant(req.slug, req.name, req.plan)],
       db.schemas[ExpectedPhysicalSchema(req.slug) := Schema(expected, {1}, {1}, {1}, true, AdminRow(req))],
       db.publicUsers,
       db.auditLog + if req.audited then [id] else [])
  }

  /** What a request leaves behind: one tenant row and one schema more, as requested; exactly the
      account asked for, in that schema; an audit row if asked for; and all else as it was. */
  ghost predicate Registered(before: Db, after: Db, id: int, req: Request) {
    var name := ExpectedPhysicalSchema(req.slug);
    && id !in before.tenants && after.tenants.Keys == before.tenants.Keys + {id}
    && after.tenants[id].slug == req.slug && after.tenants[id].name == req.name && after.tenants[id].plan == req.plan
    && (forall i :: i in before.tenants ==> after.tenants[i] == before.tenants[i])
    && name !in before.schemas && after.schemas.Keys == before.schemas.Keys + {name}
    && (forall s :: s in before.schemas ==> after.schemas[s] == before.schemas[s])
    && HoldsAccount(after.schemas[name].users, req)
    && after.publicUsers == before.publicUsers
    && after.auditLog == (if req.audited then before.auditLog + [id] else before.auditLog)
  }

  /** No user, or one with the address given, the role given or "admin", and this slug. */
  ghost predicate HoldsAccount(users: seq<User>, req: Request) {
    match req.admin
    case None => |users| == 0
    case Some(f) =>
      && |users| == 1 && users[0].email == f.email && users[0].origin == req.slug
      && users[0].role == match f.role case Some(role) => role case None => "admin"
  }

  lemma FullEffectRegisters(expected: set<string>, db: Db, id: int, req: Request)
    requires id !in db.tenants && ExpectedPhysicalSchema(req.slug) !in db.schemas
    ensures Registered(db, FullEffect(expected, db, id, req), id, req)
  {
    assert db.auditLog + [] == db.auditLog;
  }

  /** Full effect or none. */
  ghost predicate Attempted(expected: set<string>, before: Cluster, req: Request, after: Cluster) {
    || (&& CanProvision(before.db, req.slug)
        && after == Cluster(FullEffect(expected, before.db, before.nextTenant, req), before.nextTenant + 1))
    || (after.db == before.db && before.nextTenant <= after.nextTenant)
  }

  // ---------------------------------------------------------------- the transaction, step by step

  /** The private view of one transaction: its writes are seen by nobody until the commit.
      Schema names reach it as PostgreSQL keeps them, cut to 63 bytes. */
  class Transaction {
    var tenants: map<int, Tenant>
    var schemas: map<string, Schema>
    var publicUsers: seq<User>
    var auditLog: seq<int>
    var searchPath: string

    ghost function View(): Db
      reads this
    {
      Db(tenants, schemas, publicUsers, auditLog)
    }

    constructor (db: Db)
      ensures View() == db && searchPath == PUBLIC
    {
      tenants, schemas, publicUsers, auditLog := db.tenants, db.schemas, db.publicUsers, db.auditLog;
      searchPath := PUBLIC;
    }

    method InsertTenant(id: int, t: Tenant)
      modifies this`tenants
      ensures tenants == old(tenants)[id := t]
    {
      tenants := tenants[id := t];
    }

    /** `_execute_create_schema`: no IF NOT EXISTS, so a duplicate is an error. */
    method CreateSchema(schema: string) returns (ok: bool)
      modifies this`schemas
      ensures ok == (schema !in old(schemas))
      ensures schemas == if ok then old(schemas)[schema := EMPTY_SCHEMA] else old(schemas)
    {
      ok := schema !in schemas;
      if ok { schemas := schemas[schema := EMPTY_SCHEMA]; }
    }

    method SetSearchPath(schema: string)
      modifies this`searchPath
      ensures searchPath == schema
    {
      searchPath := schema;
    }

    /** `create_all`: creates in the schema of the search path the tables that it lacks. */
    method CreateAllTables(expected: set<string>)
      requires searchPath in schemas
      modifies this`schemas
      ensures schemas == old(schemas)[searchPath :=
                old(schemas)[searchPath].(tables := old(schemas)[searchPath].tables + expected)]
    {
      var missing := expected - schemas[searchPath].tables;
      schemas := schemas[searchPath := schemas[searchPath].(tables := schemas[searchPath].tables + missing)];
      assert old(schemas)[searchPath].tables + missing == old(schemas)[searchPath].tables + expected;
    }

    /** The minimal rows: one establishment if there is none, then its dependent rows. */
    method SeedRows()
      requires searchPath in schemas && WRITTEN_TABLES <= schemas[searchPath].tables
      modifies this`schemas
      ensures var s := old(schemas)[searchPath];
              var all := if s.establishments == {} then {1} else s.establishments;
              schemas == old(schemas)[searchPath :=
                s.(establishments := all, hrConfigs := s.hrConfigs + all, operations := s.operations + all,
                   allergensSeeded := true)]
    {
      var s := schemas[searchPath];
      if s.establishments == {} { s := s.(establishments := {1}); }
      assert s.hrConfigs + (s.establishments - s.hrConfigs) == s.hrConfigs + s.establishments;
      s := s.(hrConfigs := s.hrConfigs + (s.establishments - s.hrConfigs));
      s := s.(operations := s.operations + s.establishments);
      s := s.(allergensSeeded := true);
      schemas := schemas[searchPath := s];
    }

    /** `_provision_tenant_schema`: leaves the search path on the tenant's schema. */
    method ProvisionSchema(schema: string, expected: set<string>, fault: nat) returns (ok: bool)
      requires WRITTEN_TABLES <= expected
      requires schema in schemas && schemas[schema] == EMPTY_SCHEMA
      modifies this`schemas, this`searchPath
      ensures fault >= NO_FAULT ==> ok
      ensures ok ==> searchPath == schema
      ensures ok ==> schemas == old(schemas)[searchPath := Schema(expected, {1}, {1}, {1}, true, [])]
    {
      if fault == 3 { return false; }
      SetSearchPath(schema);
      if fault == 4 { return false; }
      CreateAllTables(expected);
      if fault == 5 { return false; }
      assert {} + expected == expected && {} + {1} == {1};
      SeedRows();
      ok := true;
    }

    /** An unqualified INSERT INTO users lands wherever the search path points. */
    method InsertUser(u: User) returns (ok: bool)
      modifies this`schemas, this`publicUsers
      ensures searchPath == PUBLIC ==>
                ok && publicUsers == old(publicUsers) + [u] && schemas == old(schemas)
      ensures searchPath != PUBLIC ==>
                && publicUsers == old(publicUsers)
                && ok == (searchPath in old(schemas) && "users" in old(schemas)[searchPath].tables)
                && schemas == if ok
                     then old(schemas)[searchPath :=
                            old(schemas)[searchPath].(users := old(schemas)[searchPath].users + [u])]
                     else old(schemas)
    {
      if searchPath == PUBLIC {
        publicUsers := publicUsers + [u];
        ok := true;
      } else {
        ok := searchPath in schemas && "users" in schemas[searchPath].tables;
        if ok { schemas := schemas[searchPath := schemas[searchPath].(users := schemas[searchPath].users + [u])]; }
      }
    }

    method AppendAudit(id: int)
      modifies this`auditLog
      ensures auditLog == old(auditLog) + [id]
    {
      auditLog := auditLog + [id];
    }
  }

  /** Any of these steps may raise; from this number on, none does. */
  const NO_FAULT: nat := 10

  class Server {
    var db: Db
    var nextTenant: int
    const expected: set<string>
    const historic: seq<User>   // rows of `public.users` that were always there

    ghost function View(): Cluster
      reads this
    {
      Cluster(db, nextTenant)
    }

    /** Tenants and schemas in bijection, schemas complete, admins at home, `public.users` untouched. */
    ghost predicate Valid()
      reads this
    {
      Consistent(expected, historic, View())
    }

    constructor (tables: set<string>, publicUsers: seq<User>)
      ensures expected == tables && historic == publicUsers
      ensures Valid() && View() == Cluster(Db(map[], map[], publicUsers, []), 1)
    {
      expected, historic := tables, publicUsers;
      db := Db(map[], map[], publicUsers, []);
      nextTenant := 1;
    }

    method FindTenant(slug: string) returns (found: bool)
      ensures found == SlugTaken(db, slug)
    {
      found := exists id :: id in db.tenants && db.tenants[id].slug == slug;
    }

    /** `provision_tenant`, in which step number `fault` raises unexpectedly.  Leaving the block
        early drops the transaction; only the last line makes it visible. */
    method ProvisionTenant(req: Request, fault: nat) returns (r: Result<Provisioned, ProvisionError>)
      requires Valid() && WRITTEN_TABLES <= expected
      modifies this
      ensures Valid() && Attempted(expected, old(View()), req, View())
      ensures r.Err? ==> db == old(db)
      ensures r.Ok? ==> db == FullEffect(expected, old(db), old(nextTenant), req)
      ensures r.Ok? ==> r.value == Provisioned(old(nextTenant), req.slug, req.admin.Some?)
      ensures r.Ok? ==> Registered(old(db), db, r.value.tenantId, req)
      ensures fault >= NO_FAULT ==> (r.Ok? <==> CanProvision(old(db), req.slug))
      ensures fault >= NO_FAULT && r.Err? ==>
                r.error == if SlugTaken(old(db), req.slug) then TenantExists
                           else if !LookupSlug(req.slug) then InvalidTenantSlug else SchemaCollision
    {
      var txn := new Transaction(db);
      ghost var before := View();
      if fault == 0 { return Err(Unexpected); }
      var found := FindTenant(req.slug);
      if found { return Err(TenantExists); }
      var id := nextTenant;
      nextTenant := nextTenant + 1;
      var error := WriteTenant(txn, expected, id, req, fault);
      if error.Some? { return Err(error.value); }
      if fault == 9 { return Err(Unexpected); }
      db := Db(txn.tenants, txn.schemas, txn.publicUsers, txn.auditLog);
      r := Ok(Provisioned(id, req.slug, req.admin.Some?));
      FullEffectRegisters(expected, before.db, id, req);
      AttemptKeepsConsistent(expected, historic, before, req, View());
    }
  }

  /** The first account, written while the search path is still the tenant's schema alone. */
  method InsertAdmin(txn: Transaction, req: Request, fault: nat) returns (ok: bool)
    requires txn.searchPath != PUBLIC && txn.searchPath in txn.schemas && txn.schemas[txn.searchPath].users == []
    requires "users" in txn.schemas[txn.searchPath].tables
    modifies txn`schemas, txn`publicUsers
    ensures fault >= NO_FAULT ==> ok
    ensures txn.publicUsers == old(txn.publicUsers)
    ensures ok ==> txn.schemas == old(txn.schemas)[txn.searchPath :=
              old(txn.schemas)[txn.searchPath].(users := AdminRow(req))]
    ensures ok ==> HoldsAccount(txn.schemas[txn.searchPath].users, req)
  {
    if req.admin.Some? {
      if fault == 6 { return false; }
      var role := if req.admin.value.role.Some? then req.admin.value.role.value else "admin";
      var admin := User(req.admin.value.email, role, req.slug);
      assert [] + [admin] == AdminRow(req);
      ok := txn.InsertUser(admin);
    } else {
      ok := true;
    }
  }

  /** `create_tenant_schema_on` and `_provision_tenant_schema`. */
  method BuildSchema(txn: Transaction, expected: set<string>, slug: string, fault: nat)
    returns (error: Option<ProvisionError>)
    requires WRITTEN_TABLES <= expected
    modifies txn`schemas, txn`searchPath
    ensures error.None? ==> LookupSlug(slug) && ExpectedPhysicalSchema(slug) !in old(txn.schemas)
    ensures error.None? ==> txn.searchPath == ExpectedPhysicalSchema(slug) != PUBLIC
    ensures error.None? ==>
              txn.schemas == old(txn.schemas)[ExpectedPhysicalSchema(slug) := Schema(expected, {1}, {1}, {1}, true, [])]
    ensures fault >= NO_FAULT ==>
              error == if !LookupSlug(slug) then Some(InvalidTenantSlug)
                       else if ExpectedPhysicalSchema(slug) in old(txn.schemas) then Some(SchemaCollision) else None
  {
    var name := TenantSchemaName(slug);
    if name.Err? { return Some(InvalidTenantSlug); }
    SlugIsAscii(slug);
    PhysicalName(slug);
    var physical := Take(name.value, MAX_IDENTIFIER);
    if fault == 2 { return Some(Unexpected); }
    var created := txn.CreateSchema(physical);
    if !created { return Some(SchemaCollision); }
    var done := txn.ProvisionSchema(physical, expected, fault);
    error := if done then None else Some(Unexpected);
  }

  /** The writes of `provision_tenant`, in order, on the open transaction. */
  method WriteTenant(txn: Transaction, expected: set<string>, id: int, req: Request, fault: nat)
    returns (error: Option<ProvisionError>)
    requires WRITTEN_TABLES <= expected
    modifies txn
    ensures error.None? ==> LookupSlug(req.slug) && ExpectedPhysicalSchema(req.slug) !in old(txn.schemas)
    ensures error.None? ==> txn.View() == FullEffect(expected, old(txn.View()), id, req)
    ensures fault >= NO_FAULT ==>
              error == if !LookupSlug(req.slug) then Some(InvalidTenantSlug)
                       else if ExpectedPhysicalSchema(req.slug) in old(txn.schemas) then Some(SchemaCollision) else None
  {
    if fault == 1 { return Some(Unexpected); }
    txn.InsertTenant(id, Tenant(req.slug, req.name, req.plan));

    error := BuildSchema(txn, expected, req.slug, fault);
    if error.Some? { return; }

    var inserted := InsertAdmin(txn, req, fault);
    if !inserted { return Some(Unexpected); }
    if fault == 7 { return Some(Unexpected); }
    txn.SetSearchPath(PUBLIC);
    if req.audited {
      if fault == 8 { return Some(Unexpected); }
      txn.AppendAudit(id);
    }
    error := None;
  }

  lemma PhysicalName(slug: string)
    requires Ascii(slug)
    ensures Take(PREFIX + slug, MAX_IDENTIFIER) == ExpectedPhysicalSchema(slug) != PUBLIC
  {
    AsciiSum(slug);
    ClipAscii(PREFIX + slug, MAX_IDENTIFIER);
    assert Take(PREFIX + slug, MAX_IDENTIFIER)[0] == 't' && PUBLIC[0] == 'p';
  }

  // ---------------------------------------------------------------- every history of attempts

  function Physical(t: Tenant): string {
    ExpectedPhysicalSchema(t.slug)
  }

  ghost predicate IdsUsed(c: Cluster) {
    forall id :: id in c.db.tenants ==> id < c.nextTenant && LookupSlug(c.db.tenants[id].slug)
  }

  /** Each tenant has its schema and shares it with no other tenant. */
  ghost predicate OwnSchemas(db: Db) {
    && (forall id :: id in db.tenants ==> Physical(db.tenants[id]) in db.schemas)
    && (forall i, j :: i in db.tenants && j in db.tenants && i != j ==>
        Physical(db.tenants[i]) != Physical(db.tenants[j]))
  }

  /** Each schema has a tenant. */
  ghost predicate NoOrphans(db: Db) {
    forall s :: s in db.schemas ==> exists id :: id in db.tenants && Physical(db.tenants[id]) == s
  }

  ghost predicate AllFull(expected: set<string>, db: Db) {
    forall s :: s in db.schemas ==> FullSchema(expected, s, db.schemas[s])
  }

  /** Tenants and schemas in bijection, every schema complete, every admin at home. */
  ghost predicate Consistent(expected: set<string>, publicUsers: seq<User>, c: Cluster) {
    IdsUsed(c) && OwnSchemas(c.db) && NoOrphans(c.db) && AllFull(expected, c.db) && c.db.publicUsers == publicUsers
  }

  /** All tables, the minimal rows, and only users whose provisioning created this schema. */
  ghost predicate FullSchema(expected: set<string>, name: string, s: Schema) {
    && s.tables == expected && s.establishments == s.hrConfigs == s.operations == {1} && s.allergensSeeded
    && (forall i :: 0 <= i < |s.users| ==> ExpectedPhysicalSchema(s.users[i].origin) == name)
  }

  ghost predicate History(expected: set<string>, publicUsers: seq<User>, cs: seq<Cluster>, reqs: seq<Request>) {
    && |cs| == |reqs| + 1
    && cs[0] == Cluster(Db(map[], map[], publicUsers, []), 1)
    && forall i :: 0 <= i < |reqs| ==> Attempted(expected, cs[i], reqs[i], cs[i + 1])
  }

  lemma EffectKeepsOwnSchemas(expected: set<string>, db: Db, id: int, req: Request)
    requires id !in db.tenants && OwnSchemas(db) && ExpectedPhysicalSchema(req.slug) !in db.schemas
    ensures OwnSchemas(FullEffect(expected, db, id, req))
  {
  }

  lemma EffectKeepsNoOrphans(expected: set<string>, db: Db, id: int, req: Request)
    requires id !in db.tenants && NoOrphans(db)
    ensures NoOrphans(FullEffect(expected, db, id, req))
  {
    var next := FullEffect(expected, db, id, req);
    forall s | s in next.schemas ensures exists i :: i in next.tenants && Physical(next.tenants[i]) == s {
      if s == ExpectedPhysicalSchema(req.slug) {
        assert Physical(next.tenants[id]) == s;
      } else {
        var i :| i in db.tenants && Physical(db.tenants[i]) == s;
        assert Physical(next.tenants[i]) == s;
      }
    }
  }

  lemma EffectKeepsAllFull(expected: set<string>, db: Db, id: int, req: Request)
    requires AllFull(expected, db)
    ensures AllFull(expected, FullEffect(expected, db, id, req))
  {
  }

  lemma AttemptKeepsConsistent(expected: set<string>, publicUsers: seq<User>, before: Cluster, req: Request,
                               after: Cluster)
    requires Consistent(expected, publicUsers, before) && Attempted(expected, before, req, after)
    ensures Consistent(expected, publicUsers, after)
  {
    if after.db != before.db {
      EffectKeepsOwnSchemas(expected, before.db, before.nextTenant, req);
      EffectKeepsNoOrphans(expected, before.db, before.nextTenant, req);
      EffectKeepsAllFull(expected, before.db, before.nextTenant, req);
    }
  }

  /** After any sequence of attempts, each failing anywhere, the database is consistent. */
  lemma {:induction false} HistoryConsistent(expected: set<string>, publicUsers: seq<User>, cs: seq<Cluster>,
                                             reqs: seq<Request>, n: nat)
    requires History(expected, publicUsers, cs, reqs) && n < |cs|
    ensures Consistent(expected, publicUsers, cs[n])
  {
    if n > 0 {
      HistoryConsistent(expected, publicUsers, cs, reqs, n - 1);
      AttemptKeepsConsistent(expected, publicUsers, cs[n - 1], reqs[n - 1], cs[n]);
    }
  }

  /** In every history, an attempt that changes anything registers its request under a new id. */
  lemma AttemptRegisters(expected: set<string>, publicUsers: seq<User>, cs: seq<Cluster>, reqs: seq<Request>, n: nat)
    requires History(expected, publicUsers, cs, reqs) && n < |reqs| && cs[n + 1].db != cs[n].db
    ensures Registered(cs[n].db, cs[n + 1].db, cs[n].nextTenant, reqs[n])
  {
    HistoryConsistent(expected, publicUsers, cs, reqs, n);
    assert Attempted(expected, cs[n], reqs[n], cs[n + 1]);
    FullEffectRegisters(expected, cs[n].db, cs[n].nextTenant, reqs[n]);
  }

  // ---------------------------------------------------------------- what the audit says then

  /** `SELECT id, slug, name FROM public.tenants ORDER BY id` */
  ghost predicate IsTenantList(rows: seq<Audit.TenantRow>, tenants: map<int, Tenant>) {
    && (forall i, j :: 0 <= i < j < |rows| ==> rows[i].id < rows[j].id)
    && (forall i :: 0 <= i < |rows| ==>
          rows[i].id in tenants && rows[i].slug == tenants[rows[i].id].slug && rows[i].name == tenants[rows[i].id].name)
    && (forall id :: id in tenants ==> exists i :: 0 <= i < |rows| && rows[i].id == id)
  }

  function TablesOf(db: Db): map<string, set<string>> {
    map s | s in db.schemas :: db.schemas[s].tables
  }

  ghost predicate SomeLongSlug(db: Db) {
    exists id :: id in db.tenants && |db.tenants[id].slug| > MAX_NEW_SLUG
  }

  lemma ConsistentBijective(db: Db, rows: seq<Audit.TenantRow>)
    requires OwnSchemas(db) && NoOrphans(db) && IsTenantList(rows, db.tenants)
    ensures Audit.Bijective(rows, TablesOf(db).Keys)
  {
    forall s | s in db.schemas ensures exists i :: 0 <= i < |rows| && Audit.Physical(rows[i]) == s {
      var id :| id in db.tenants && Physical(db.tenants[id]) == s;
      var i :| 0 <= i < |rows| && rows[i].id == id;
      assert Audit.Physical(rows[i]) == s;
    }
  }

  lemma LongSlugsListed(c: Cluster, rows: seq<Audit.TenantRow>)
    requires IsTenantList(rows, c.db.tenants)
    ensures Audit.ShortSlugs(rows) <==> !SomeLongSlug(c.db)
  {
    if SomeLongSlug(c.db) {
      var id :| id in c.db.tenants && |c.db.tenants[id].slug| > MAX_NEW_SLUG;
      var i :| 0 <= i < |rows| && rows[i].id == id;
      assert |rows[i].slug| > MAX_NEW_SLUG;
    } else {
      forall i | 0 <= i < |rows| ensures |rows[i].slug| <= MAX_NEW_SLUG {
        assert rows[i].id in c.db.tenants;
      }
    }
  }

  /** The audit of a consistent database has an issue exactly when a slug is longer than 56. */
  lemma AuditOfConsistent(expected: set<string>, publicUsers: seq<User>, c: Cluster, rows: seq<Audit.TenantRow>)
    requires Consistent(expected, publicUsers, c) && IsTenantList(rows, c.db.tenants)
    ensures Audit.HasIssues(Audit.RunAudit(expected, rows, TablesOf(c.db))) <==> SomeLongSlug(c.db)
  {
    var content := TablesOf(c.db);
    assert forall s :: s in content ==> content[s] == expected;
    Audit.CleanAudit(expected, rows, content);
    ConsistentBijective(c.db, rows);
    LongSlugsListed(c, rows);
  }

  lemma {:induction false} HistorySlugs(expected: set<string>, publicUsers: seq<User>, cs: seq<Cluster>,
                                        reqs: seq<Request>, n: nat)
    requires History(expected, publicUsers, cs, reqs) && n < |cs|
    ensures forall id :: id in cs[n].db.tenants ==> exists k :: 0 <= k < n && reqs[k].slug == cs[n].db.tenants[id].slug
  {
    if n > 0 {
      HistorySlugs(expected, publicUsers, cs, reqs, n - 1);
      assert Attempted(expected, cs[n - 1], reqs[n - 1], cs[n]);
      forall id | id in cs[n].db.tenants
        ensures exists k :: 0 <= k < n && reqs[k].slug == cs[n].db.tenants[id].slug
      {
        if id in cs[n - 1].db.tenants && cs[n].db.tenants[id] == cs[n - 1].db.tenants[id] {
          var k :| 0 <= k < n - 1 && reqs[k].slug == cs[n - 1].db.tenants[id].slug;
          assert reqs[k].slug == cs[n].db.tenants[id].slug;
        } else {
          assert reqs[n - 1].slug == cs[n].db.tenants[id].slug;
        }
      }
    }
  }

  /** Main theorem: when every request passed the creation rule, the audit never finds anything,
      whatever failed on the way. */
  lemma AuditAlwaysClean(expected: set<string>, publicUsers: seq<User>, cs: seq<Cluster>, reqs: seq<Request>,
                         n: nat, rows: seq<Audit.TenantRow>)
    requires History(expected, publicUsers, cs, reqs) && n < |cs|
    requires forall k :: 0 <= k < |reqs| ==> CreationSlug(reqs[k].slug)
    requires IsTenantList(rows, cs[n].db.tenants)
    ensures !Audit.HasIssues(Audit.RunAudit(expected, rows, TablesOf(cs[n].db)))
  {
    HistoryConsistent(expected, publicUsers, cs, reqs, n);
    AuditOfConsistent(expected, publicUsers, cs[n], rows);
    HistorySlugs(expected, publicUsers, cs, reqs, n);
  }
}
