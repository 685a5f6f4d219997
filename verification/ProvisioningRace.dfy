/** Provisioning attempts racing each other (app/core/tenancy/provisioning.py,
    app/core/tenancy/tenant.py).

    Several transactions are open at once.  The SELECT on the slug sees committed rows only, so it
    decides nothing; a unique index on the slug and CREATE SCHEMA make a transaction wait for
    another one that holds the same key, and refuse a key that is committed. */
module ProvisioningRace {

  import opened Common
  import opened Slugs
  import opened Provisioning
  import Audit

  /** `unique`: `tenants.slug` has a unique index.  `refuse`: CREATE SCHEMA without IF NOT EXISTS. */
  datatype Guards = Guards(unique: bool, refuse: bool)

  datatype Stage = Checked | Inserted(id: int) | Created(id: int)

  datatype Attempt = Attempt(req: Request, stage: Stage)

  datatype State = State(cluster: Cluster, open: map<nat, Attempt>)

  datatype Event =
    | Check(t: nat, req: Request)   // SELECT ... WHERE slug = ... found no row
    | Insert(t: nat)                // INSERT INTO public.tenants
    | Create(t: nat)                // CREATE SCHEMA, tables, rows and admin
    | Commit(t: nat)
    | Abort(t: nat)                 // any step raises

  function Target(a: Attempt): string {
    ExpectedPhysicalSchema(a.req.slug)
  }

  /** Another transaction has inserted the slug and not ended. */
  predicate SlugHeld(st: State, t: nat) {
    && t in st.open
    && exists u ::
         u in st.open && u != t && !st.open[u].stage.Checked? && st.open[u].req.slug == st.open[t].req.slug
  }

  /** Another transaction has created the schema and not ended. */
  predicate SchemaHeld(st: State, t: nat) {
    && t in st.open
    && exists u :: u in st.open && u != t && st.open[u].stage.Created? && Target(st.open[u]) == Target(st.open[t])
  }

  function Put(st: State, t: nat, a: Attempt): State {
    st.(open := st.open[t := a])
  }

  function Drop(st: State, t: nat): State {
    st.(open := st.open - {t})
  }

  /** What a commit writes: a schema that is there already is used along with the others. */
  function Effect(expected: set<string>, db: Db, id: int, req: Request): Db {
    var name := ExpectedPhysicalSchema(req.slug);
    var full := FullEffect(expected, db, id, req);
    if name in db.schemas
    then full.(schemas := db.schemas[name := db.schemas[name].(users := db.schemas[name].users + AdminRow(req))])
    else full
  }

  /** `None` when the event cannot happen, in particular when it would have to wait. */
  function Step(g: Guards, expected: set<string>, st: State, e: Event): Option<State> {
    match e
    case Check(t, req) =>
      if t in st.open || SlugTaken(st.cluster.db, req.slug) then None else Some(Put(st, t, Attempt(req, Checked)))
    case Insert(t) =>
      if t !in st.open || !st.open[t].stage.Checked? || (g.unique && SlugHeld(st, t)) then None
      else
        var next := st.(cluster := st.cluster.(nextTenant := st.cluster.nextTenant + 1));
        if g.unique && SlugTaken(st.cluster.db, st.open[t].req.slug) then Some(Drop(next, t))
        else Some(Put(next, t, Attempt(st.open[t].req, Inserted(st.cluster.nextTenant))))
    case Create(t) =>
      if t !in st.open || !st.open[t].stage.Inserted? || (g.refuse && SchemaHeld(st, t)) then None
      else if !LookupSlug(st.open[t].req.slug) || (g.refuse && Target(st.open[t]) in st.cluster.db.schemas)
      then Some(Drop(st, t))
      else Some(Put(st, t, Attempt(st.open[t].req, Created(st.open[t].stage.id))))
    case Commit(t) =>
      if t !in st.open || !st.open[t].stage.Created? then None
      else
        var a := st.open[t];
        Some(Drop(st.(cluster := st.cluster.(db := Effect(expected, st.cluster.db, a.stage.id, a.req))), t))
    case Abort(t) => if t !in st.open then None else Some(Drop(st, t))
  }

  function Run(g: Guards, expected: set<string>, st: State, es: seq<Event>): Option<State>
    decreases |es|
  {
    if es == [] then Some(st)
    else
      match Step(g, expected, st, es[0])
      case None => None
      case Some(next) => Run(g, expected, next, es[1..])
  }

  function Start(publicUsers: seq<User>): State {
    State(Cluster(Db(map[], map[], publicUsers, []), 1), map[])
  }

  // ---------------------------------------------------------------- invariant

  /** An attempt's id is its own and not committed; a created schema is not committed either. */
  ghost predicate AttemptOk(st: State, t: nat)
    requires t in st.open
  {
    match st.open[t].stage
    case Checked => true
    case Inserted(id) => id < st.cluster.nextTenant && id !in st.cluster.db.tenants
    case Created(id) =>
      && id < st.cluster.nextTenant && id !in st.cluster.db.tenants
      && LookupSlug(st.open[t].req.slug) && Target(st.open[t]) !in st.cluster.db.schemas
  }

  /** No two attempts have the same id or are creating the same schema. */
  ghost predicate Apart(a: Attempt, b: Attempt) {
    && (!a.stage.Checked? && !b.stage.Checked? ==> a.stage.id != b.stage.id)
    && (a.stage.Created? && b.stage.Created? ==> Target(a) != Target(b))
  }

  ghost predicate Inv(expected: set<string>, publicUsers: seq<User>, st: State) {
    && Consistent(expected, publicUsers, st.cluster)
    && (forall t :: t in st.open ==> AttemptOk(st, t))
    && (forall t, u :: t in st.open && u in st.open && t != u ==> Apart(st.open[t], st.open[u]))
  }

  /** A commit is the full effect of an attempt that nothing stands in the way of. */
  lemma CommitIsFullEffect(g: Guards, expected: set<string>, publicUsers: seq<User>, st: State, t: nat)
    requires Inv(expected, publicUsers, st) && Step(g, expected, st, Commit(t)).Some?
    ensures var a := st.open[t];
            && CanProvision(st.cluster.db, a.req.slug) && a.stage.id !in st.cluster.db.tenants
            && Step(g, expected, st, Commit(t)).value.cluster.db ==
                 FullEffect(expected, st.cluster.db, a.stage.id, a.req)
            && Registered(st.cluster.db, Step(g, expected, st, Commit(t)).value.cluster.db, a.stage.id, a.req)
  {
    assert AttemptOk(st, t);
    FullEffectRegisters(expected, st.cluster.db, st.open[t].stage.id, st.open[t].req);
  }

  lemma CommitKeepsConsistent(g: Guards, expected: set<string>, publicUsers: seq<User>, st: State, t: nat)
    requires Inv(expected, publicUsers, st) && Step(g, expected, st, Commit(t)).Some?
    ensures Consistent(expected, publicUsers, Step(g, expected, st, Commit(t)).value.cluster)
  {
    CommitIsFullEffect(g, expected, publicUsers, st, t);
    assert AttemptOk(st, t);
    var db, a := st.cluster.db, st.open[t];
    EffectKeepsOwnSchemas(expected, db, a.stage.id, a.req);
    EffectKeepsNoOrphans(expected, db, a.stage.id, a.req);
    EffectKeepsAllFull(expected, db, a.stage.id, a.req);
  }

  lemma CommitKeepsInv(g: Guards, expected: set<string>, publicUsers: seq<User>, st: State, t: nat)
    requires Inv(expected, publicUsers, st) && Step(g, expected, st, Commit(t)).Some?
    ensures Inv(expected, publicUsers, Step(g, expected, st, Commit(t)).value)
  {
    CommitKeepsConsistent(g, expected, publicUsers, st, t);
    CommitIsFullEffect(g, expected, publicUsers, st, t);
    var next := Step(g, expected, st, Commit(t)).value;
    forall u | u in next.open ensures AttemptOk(next, u) {
      assert AttemptOk(st, u) && Apart(st.open[t], st.open[u]);
    }
  }

  lemma CreateKeepsInv(g: Guards, expected: set<string>, publicUsers: seq<User>, st: State, t: nat)
    requires g.refuse && Inv(expected, publicUsers, st) && Step(g, expected, st, Create(t)).Some?
    ensures Inv(expected, publicUsers, Step(g, expected, st, Create(t)).value)
  {
    var next := Step(g, expected, st, Create(t)).value;
    assert AttemptOk(st, t);
    forall u | u in next.open ensures AttemptOk(next, u) {
      assert AttemptOk(st, u);
    }
    forall u, v | u in next.open && v in next.open && u != v ensures Apart(next.open[u], next.open[v]) {
      assert Apart(st.open[u], st.open[v]);
    }
  }

  lemma InsertKeepsInv(g: Guards, expected: set<string>, publicUsers: seq<User>, st: State, t: nat)
    requires Inv(expected, publicUsers, st) && Step(g, expected, st, Insert(t)).Some?
    ensures Inv(expected, publicUsers, Step(g, expected, st, Insert(t)).value)
  {
    var next := Step(g, expected, st, Insert(t)).value;
    forall u | u in next.open ensures AttemptOk(next, u) {
      assert AttemptOk(st, u);
    }
    forall u, v | u in next.open && v in next.open && u != v ensures Apart(next.open[u], next.open[v]) {
      assert Apart(st.open[u], st.open[v]) && AttemptOk(st, u) && AttemptOk(st, v);
    }
  }

  lemma StepKeepsInv(g: Guards, expected: set<string>, publicUsers: seq<User>, st: State, e: Event)
    requires g.refuse && Inv(expected, publicUsers, st) && Step(g, expected, st, e).Some?
    ensures Inv(expected, publicUsers, Step(g, expected, st, e).value)
  {
    match e
    case Insert(t) => InsertKeepsInv(g, expected, publicUsers, st, t);
    case Create(t) => CreateKeepsInv(g, expected, publicUsers, st, t);
    case Commit(t) => CommitKeepsInv(g, expected, publicUsers, st, t);
    case _ =>
      var next := Step(g, expected, st, e).value;
      forall u | u in next.open ensures AttemptOk(next, u) {
        if u in st.open { assert AttemptOk(st, u); }
      }
  }

  lemma {:induction false} RunKeepsInv(g: Guards, expected: set<string>, publicUsers: seq<User>, st: State,
                                       es: seq<Event>)
    requires g.refuse && Inv(expected, publicUsers, st) && Run(g, expected, st, es).Some?
    ensures Inv(expected, publicUsers, Run(g, expected, st, es).value)
    decreases |es|
  {
    if es != [] {
      StepKeepsInv(g, expected, publicUsers, st, es[0]);
      RunKeepsInv(g, expected, publicUsers, Step(g, expected, st, es[0]).value, es[1..]);
    }
  }

  // ---------------------------------------------------------------- results

  /** In every interleaving the committed database is consistent. */
  ghost predicate AlwaysConsistent(g: Guards) {
    forall expected, publicUsers, es ::
      Run(g, expected, Start(publicUsers), es).Some? ==>
        Consistent(expected, publicUsers, Run(g, expected, Start(publicUsers), es).value.cluster)
  }

  /** Racing attempts keep tenants and schemas in bijection, schemas complete and admins at home; an
      audit at any moment finds an issue exactly when a slug is too long. */
  lemma RacesStayConsistent(g: Guards, expected: set<string>, publicUsers: seq<User>, es: seq<Event>,
                            rows: seq<Audit.TenantRow>)
    requires g.refuse && Run(g, expected, Start(publicUsers), es).Some?
    requires IsTenantList(rows, Run(g, expected, Start(publicUsers), es).value.cluster.db.tenants)
    ensures var c := Run(g, expected, Start(publicUsers), es).value.cluster;
            && Consistent(expected, publicUsers, c)
            && (Audit.HasIssues(Audit.RunAudit(expected, rows, TablesOf(c.db))) <==> SomeLongSlug(c.db))
  {
    RunKeepsInv(g, expected, publicUsers, Start(publicUsers), es);
    AuditOfConsistent(expected, publicUsers, Run(g, expected, Start(publicUsers), es).value.cluster, rows);
  }

  lemma {:induction false} RunSplits(g: Guards, expected: set<string>, st: State, xs: seq<Event>, ys: seq<Event>)
    requires Run(g, expected, st, xs).Some?
    ensures Run(g, expected, st, xs + ys) == Run(g, expected, Run(g, expected, st, xs).value, ys)
    decreases |xs|
  {
    if xs == [] {
      assert xs + ys == ys;
    } else {
      assert (xs + ys)[1..] == xs[1..] + ys;
      RunSplits(g, expected, Step(g, expected, st, xs[0]).value, xs[1..], ys);
    }
  }

  lemma RunNext(g: Guards, expected: set<string>, st: State, es: seq<Event>, e: Event)
    requires Run(g, expected, st, es).Some?
    ensures Run(g, expected, st, es + [e]) == Step(g, expected, Run(g, expected, st, es).value, e)
  {
    RunSplits(g, expected, st, es, [e]);
    assert [e][1..] == [];
  }

  /** One attempt from beginning to end, alone, when its slug is free and well formed. */
  lemma AttemptRun(g: Guards, expected: set<string>, cluster: Cluster, req: Request) returns (es: seq<Event>)
    requires !SlugTaken(cluster.db, req.slug) && LookupSlug(req.slug)
    requires g.refuse ==> ExpectedPhysicalSchema(req.slug) !in cluster.db.schemas
    ensures Run(g, expected, State(cluster, map[]), es) ==
              Some(State(Cluster(Effect(expected, cluster.db, cluster.nextTenant, req), cluster.nextTenant + 1), map[]))
  {
    var st, id := State(cluster, map[]), cluster.nextTenant;
    var later := cluster.(nextTenant := id + 1);
    var s1 := State(cluster, map[0 := Attempt(req, Checked)]);
    var s2 := State(later, map[0 := Attempt(req, Inserted(id))]);
    var s3 := State(later, map[0 := Attempt(req, Created(id))]);
    var s4 := State(later.(db := Effect(expected, cluster.db, id, req)), map[]);
    RunNext(g, expected, st, [], Check(0, req));
    assert st.open[0 := Attempt(req, Checked)] == s1.open;
    es := [] + [Check(0, req)];
    RunNext(g, expected, st, es, Insert(0));
    assert s1.open[0 := Attempt(req, Inserted(id))] == s2.open;
    es := es + [Insert(0)];
    RunNext(g, expected, st, es, Create(0));
    assert s2.open[0 := Attempt(req, Created(id))] == s3.open;
    es := es + [Create(0)];
    RunNext(g, expected, st, es, Commit(0));
    assert s3.open - {0} == map[];
    es := es + [Commit(0)];
  }

  /** With IF NOT EXISTS two tenants end up in one schema. */
  lemma TwoTenantsOneSchema(g: Guards) returns (es: seq<Event>)
    requires !g.refuse
    ensures Run(g, {}, Start([]), es).Some?
    ensures !Consistent({}, [], Run(g, {}, Start([]), es).value.cluster)
  {
    var a, b := SharingSlugs();
    var first, second := Request(a, "", "", None, false), Request(b, "", "", None, false);
    var c0 := Start([]).cluster;
    var c1 := Cluster(Effect({}, c0.db, 1, first), 2);
    var c2 := Cluster(Effect({}, c1.db, 2, second), 3);
    var xs := AttemptRun(g, {}, c0, first);
    assert c1.db.tenants == map[1 := Tenant(a, "", "")];
    var ys := AttemptRun(g, {}, c1, second);
    RunSplits(g, {}, Start([]), xs, ys);
    es := xs + ys;
    assert c2.db.tenants[1].slug == a && c2.db.tenants[2].slug == b;
    assert Physical(c2.db.tenants[1]) == Physical(c2.db.tenants[2]);
  }

  /** Consistency under races rests on CREATE SCHEMA refusing a schema that exists, whether or not
      there is a unique index on slugs. */
  lemma ConsistencyNeedsRefusal(g: Guards)
    ensures AlwaysConsistent(g) <==> g.refuse
  {
    if g.refuse {
      forall expected, publicUsers, es | Run(g, expected, Start(publicUsers), es).Some?
        ensures Consistent(expected, publicUsers, Run(g, expected, Start(publicUsers), es).value.cluster)
      {
        RunKeepsInv(g, expected, publicUsers, Start(publicUsers), es);
      }
    } else {
      var es := TwoTenantsOneSchema(g);
      assert Run(g, {}, Start([]), es).Some?;
    }
  }
}
