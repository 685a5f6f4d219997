# A verified model of the multi-tenant restaurant back end

The repository is a FastAPI back end in which every restaurant is a tenant with a PostgreSQL
schema of its own. This project models the parts whose correctness is an argument over many steps
or many actors, and proves those arguments.

| module | what it models |
|---|---|
| `SearchPath` | sessions borrowing connections from one shared pool, and the two hooks that keep each session on its own `search_path` |
| `TenantIsolation` | the pool's guarantee carried down to the schemas that PostgreSQL finds |
| `Slugs`, `Audit`, `Provisioning` | tenant slugs and the 63-byte schema names, the audit of schemas, and provisioning as one transaction that may fail at every step |
| `ProvisioningRace` | provisioning attempts that race each other for a slug or a schema |
| `RefreshTokens` | concurrent rotation, logout and revocation of refresh tokens under row locks, in Read Committed |
| `Menus`, `MenuEffects`, `MenuService`, `PublicMenus`, `PublicOutputs` | the menu operations with automatic unpublishing and an audit log; the counting filter, the builder and the pages of the public listing |
| `SyncLock`, `RateLimit`, `SyncGuards` | the expiring lock and the fixed-window limiter of the catalogue synchronisation |
| `Normalize`, `NormalizedEntries`, `CatalogSync`, `SyncJob` | from the hub's payload to catalogue entries, to products and to the committed snapshot, and the job that does it all |
| `OrderExpiration` | workers that cancel stale orders under `FOR UPDATE SKIP LOCKED` |
| `SvgSanitize` | in-place pruning of an element tree through a precomputed parent map |
| `RecipeDedupe` | four SQL statements that merge duplicate recipe rows |
| `SizeLimit` | the streaming limit on request bodies |

Protocols are step functions over explicit states; `Run` folds them over any sequence of events, so
a lemma about `Run` is a statement about every interleaving. Code that changes state in place is a
class whose methods are proved against functions or predicates on values, and the laws are proved
about those. `dafny verify dfyconfig.toml` checks the whole project.

Results worth knowing before reading the code:

- Isolation of sessions rests on the begin hook alone, neutrality of the pool on the explicit
  commit of the check-in hook alone; both are equivalences (`IsolationNeedsBeginHook`,
  `NeutralityNeedsCommit`). A session without a path of its own starts on `public` if and only if the
  pool had the connection already (`RawStartsOnPublicIff`); a brand-new connection starts on
  PostgreSQL's default path, not on `public` as the comment at app/core/database/session.py:23-84
  has it (`FreshConnectionStartsOnDefault`).
- The pool refuses nothing that private connections allow: every idle connection can be borrowed by
  every session, and every step of the private system is matched (`EventsEnabled`,
  `PrivateStepsMatched`).
- Two tenants' statements run in different schemas if and only if their slugs differ within the first
  56 characters (`TenantsApartIff`).
- Stale orders are cancelled at most once if and only if nobody turns a cancelled unpaid order into a
  pending unpaid one again (`AtMostOnceIff`). The order graph never does; an external authority may
  (app/modules/orders/service.py:57-62), and then the order is cancelled once per opening
  (`CancelledOncePerOpening`, `ExternalCancelsTwice`).
- The lock of the catalogue synchronisation is safe exactly when it outlives the longest job
  (`SafeIffLockOutlivesJob`); the deployed 120 s and 150 s are.
- At most `limit` calls per minute holds exactly when no time passes between reading the clock and
  INCR (or the limit is not positive): a late INCR can find its counter expired
  (`BoundedIffNoDelay`, `LateCall`). With a delay the least bound grows by one limit for every minute
  or part of one (`BoundedPerWindow`, `QuotaIsLeastBound`).
- `run_audit` supplies no table set for a schema without any table, so an empty schema is not
  reported (`EmptySchemaGoesUnreported`); `CleanAudit` says exactly what a clean audit means.
- The 56-character limit on slugs is about bytes: for arbitrary slugs the schema names are injective
  up to 56 bytes and up to 14 characters, and no further (`InjectiveBytesIff`,
  `InjectiveCharsIff`). Slugs accepted for creation are ASCII.
- `normalize_catalog` documents one error class; `PayloadEscapesIff` says exactly which payloads let
  another one through: an AttributeError (no object, or the first bad product), a TypeError
  (categories that cannot be iterated over, such as null) or an OverflowError (an integer beyond the
  floats). The synchronisation job catches all alike.
- Racing provisioning attempts keep the database consistent if and only if CREATE SCHEMA refuses a
  schema that exists, with or without a unique index on slugs (`ConsistencyNeedsRefusal`).
- For a tenant with one connection the products always agree with the snapshot (`SnapshotAgrees`).
  With two, they still agree with the first one's after the second one's run if and only if both
  catalogues prescribe the same for every external id (`SecondConnectionAgreesIff`).
- An SVG root is never removed, so the result is free of blocked elements exactly when the root is
  not one (`FreeOfBlockedIffRootAllowed`).

## Model

| member | source | states |
|---|---|---|
| `SearchPath.PooledRefinesPrivate` | app/core/database/session.py:23-159 | every run of the pooled system, with any sessions, mid-session commits, failures and reuse of connections, has a log that sessions with private connections also produce, and every helper session's statement ran under its own path |
| `SearchPath.RunRefines` | app/core/database/session.py:88-159 | from any state satisfying the invariants, a run of the pool is a run of the private system between the abstracted states |
| `SearchPath.StepRefines` | app/core/database/session.py:88-159 | one event of the pool is one event of the private system on the abstraction, with the same log |
| `SearchPath.OthersUntouched` | app/core/database/session.py:23-84 | an event of one session changes neither the existence nor the transaction of any other session |
| `SearchPath.EventsEnabled` | app/core/database/session.py:205-261 | in every reachable state a session without a transaction may begin on every idle and every new connection, one with a transaction may end it in any way and executes exactly unless it failed, and any session may be opened or closed |
| `SearchPath.ReturnedIsBorrowable` | app/core/database/session.py:23-84 | after a commit or rollback the connection is idle, on `public`, exactly unless it is terminated, and any session without a transaction may take it |
| `SearchPath.ClosedIsReturned` | app/core/database/session.py:122-159 | closing a session in mid-transaction gives its connection back |
| `SearchPath.PrivateStepsMatched` | app/core/database/session.py:23-159 | every event of the private system is an event of the pool on any idle or new connection and leads to the same state; raw sessions begin on `public` on an idle connection and on the default on a new one |
| `SearchPath.ConnectionReused` | app/core/database/session.py:42-47 | a run in which one connection serves a session twice |
| `SearchPath.RunKeeps` | app/core/database/session.py:88-159 | over whole runs: connections belong to one session; with the committing check-in hook idle connections stay on `public`; with the begin hook sessions stay on their own path |
| `SearchPath.IsolationNeedsBeginHook` | app/core/database/session.py:88-119 | for every choice of hooks, all runs isolate the helpers' sessions if and only if the begin hook is installed |
| `SearchPath.NeutralityNeedsCommit` | app/core/database/session.py:122-159 | for every choice of hooks, every reachable idle connection is on `public` if and only if the check-in hook sets the path and commits |
| `SearchPath.RawStartsOnPublicIff` | app/core/database/session.py:23-84 | in every reachable state a session without a path starts its transaction on `public` if and only if the connection was idle in the pool, and on the server's default otherwise |
| `SearchPath.FreshConnectionStartsOnDefault` | app/core/database/session.py:23-84 | the first statement of the first such session does not run on `public` |
| `SearchPath.Connection.ApplySearchPathOnTransactionBegin` | app/core/database/session.py:88-119 | with a path in the session's info the transaction gets that path and the committed one stays; without, nothing changes |
| `SearchPath.Connection.ResetSearchPathOnCheckin` | app/core/database/session.py:122-159 | returns early, unchanged and not kept, when only termination is left; a connection that is kept has `public` committed and no open transaction |
| `Slugs.CreationSlugsResolve` | app/core/database/session.py:164-202 | a slug valid for creation is valid for lookup and its schema name is never truncated |
| `Slugs.SlugRules` | app/core/database/session.py:164-186 | which characters and lengths may be looked up and created |
| `Slugs.TenantPathsDiffer` | app/core/database/session.py:188-261 | distinct tenants deposit distinct paths, and the paths reach distinct schemas if and only if the slugs differ within 56 characters |
| `Slugs.ClipAscii` | tools/audit_tenant_schemas.py:68-78 | clipping ASCII to a byte budget is taking that many characters |
| `Slugs.ClipKeepsShort` | tools/audit_tenant_schemas.py:68-78 | a name within the budget is kept whole |
| `Slugs.CollisionNeedsManyBytes` | tools/audit_tenant_schemas.py:68-78 | distinct slugs with the same physical schema: one is longer than 56 bytes |
| `Slugs.AsciiCollisions` | tools/audit_tenant_schemas.py:130-140 | ASCII slugs collide exactly when their first 56 characters agree, and distinct colliding ones include one of more than 56 characters |
| `Slugs.ShortNonAsciiCollision` | tools/audit_tenant_schemas.py:68-78 | outside ASCII two slugs of at most 56 characters do share a physical schema |
| `Slugs.InjectiveBytesIff` | tools/audit_tenant_schemas.py:68-78 | physical names tell all slugs of at most n bytes apart if and only if n is at most 56 |
| `Slugs.InjectiveCharsIff` | tools/audit_tenant_schemas.py:68-78 | physical names tell all slugs of at most n characters apart if and only if n is at most 14 |
| `TenantIsolation.StatementReachesOwnSchema` | app/core/database/session.py:88-119 | in every run of the pool a tenant's statement reaches the tenant's physical schema |
| `TenantIsolation.TenantsApartIff` | app/core/database/session.py:164-261 | statements of two tenants reach different schemas if and only if the slugs differ within 56 characters, and for creation slugs if and only if they differ |
| `TenantIsolation.LongSlugsShareSchema` | app/core/database/session.py:176-202 | two lookup slugs that share a schema |
| `Audit.GroupTenants` | tools/audit_tenant_schemas.py:134-136 | the dictionary filled by the loop holds exactly each schema's rows in order, its keys in order of first appearance |
| `Audit.FindIncomplete` | tools/audit_tenant_schemas.py:149-155 | the loop finds exactly the known schemas that lack an expected table, each with what it lacks |
| `Audit.BuildReport` | tools/audit_tenant_schemas.py:128-165 | the report equals its reference definition over the inputs |
| `Audit.ReportLists` | tools/audit_tenant_schemas.py:128-140 | the report lists, in table order, exactly the rows with long slugs and exactly the rows without schema, and, in the order of their schemas, exactly the groups of more than one row |
| `Audit.ReportHolds` | tools/audit_tenant_schemas.py:128-165 | totals, orphans, and for each known schema that lacks a table exactly the tables it lacks |
| `Audit.GroupAre` | tools/audit_tenant_schemas.py:134-136 | a group holds exactly the rows of its schema, in table order |
| `Audit.SchemasAre` | tools/audit_tenant_schemas.py:134-136 | schemas are listed in the order of the rows that name them first |
| `Audit.GroupSize` | tools/audit_tenant_schemas.py:134-140 | a group has more than one row exactly when two rows share the physical schema |
| `Audit.NoCollisions` | tools/audit_tenant_schemas.py:134-140 | no collision group is reported exactly when the physical names are pairwise distinct |
| `Audit.CleanReport` | tools/audit_tenant_schemas.py:97-165 | no issue if and only if slugs are short, rows and schemas are in bijection, and every schema whose tables were supplied is complete |
| `Audit.CleanAudit` | tools/audit_tenant_schemas.py:168-213 | the whole audit is clean if and only if slugs are short, the map is a bijection, and each schema is complete or has no table at all |
| `Audit.EmptySchemaGoesUnreported` | tools/audit_tenant_schemas.py:180-213 | a concrete database with an empty schema and a clean report |
| `Provisioning.Server.ProvisionTenant` | app/core/tenancy/provisioning.py:105-214 | for a failure at any step the attempt has its full effect or none and the database stays consistent; success leaves the tenant row as requested, exactly the account requested in its schema, and all else unchanged; without failure it succeeds exactly when the slug is free and well formed and the schema unused, and otherwise which error it gives |
| `Provisioning.BuildSchema` | app/core/tenancy/provisioning.py:167-192 | on success a full schema under the tenant's physical name and the search path on it; without faults, which error |
| `Provisioning.WriteTenant` | app/core/tenancy/provisioning.py:167-210 | when the ordered writes succeed they amount to the one atomic effect |
| `Provisioning.InsertAdmin` | app/core/tenancy/provisioning.py:193-197 | the schema on the search path holds exactly the account requested, with the role given or admin, and `public` gains nothing |
| `Provisioning.Transaction.CreateSchema` | app/core/tenancy/tenant.py:99-109 | creates an empty schema, or refuses one that exists and changes nothing |
| `Provisioning.Transaction.ProvisionSchema` | app/core/tenancy/provisioning.py:68-102 | on an empty schema: all expected tables, one establishment with its two configuration rows, seeded allergens, and the search path left there |
| `Provisioning.Transaction.SeedRows` | app/core/tenancy/provisioning.py:76-102 | there is an establishment, and every establishment has its configuration row and its operations row, those there were included |
| `Provisioning.AttemptKeepsConsistent` | app/core/tenancy/provisioning.py:167-214 | an attempt keeps tenants and schemas in bijection, every schema full, each admin in its own tenant's schema and `public.users` as it was |
| `Provisioning.HistoryConsistent` | app/core/tenancy/provisioning.py:167-214 | the same after any sequence of attempts, failed or not, from an empty database |
| `Provisioning.AttemptRegisters` | app/core/tenancy/provisioning.py:167-214 | in every history, an attempt that changes anything adds one tenant row, one schema and exactly the account, role and audit row requested, and changes nothing else |
| `Provisioning.AuditOfConsistent` | tools/audit_tenant_schemas.py:97-165 | the audit of a consistent database has an issue if and only if some slug is too long |
| `Provisioning.AuditAlwaysClean` | tools/audit_tenant_schemas.py:128-213 | with slugs valid for creation the audit finds nothing, ever |
| `ProvisioningRace.CommitIsFullEffect` | app/core/tenancy/provisioning.py:167-214 | whatever races, a commit is the full effect of an attempt whose slug and schema are free at that instant |
| `ProvisioningRace.RacesStayConsistent` | app/core/tenancy/provisioning.py:167-214 | in every interleaving of attempts with aborts, tenants and schemas are in bijection, schemas complete, admins at home, and an audit has an issue if and only if a slug is too long |
| `ProvisioningRace.ConsistencyNeedsRefusal` | app/core/tenancy/tenant.py:77-109 | all interleavings stay consistent if and only if CREATE SCHEMA refuses a schema that exists, with or without a unique index on slugs |
| `ProvisioningRace.TwoTenantsOneSchema` | app/core/tenancy/tenant.py:86-96 | with IF NOT EXISTS, a run that puts two tenants into one schema |
| `RefreshTokens.RotationSafe` | app/modules/auth/service.py:318-486 | in every interleaving with aborts, at most one live committed row per rotation family, each row consumed at most once, each child's parent consumed, no two children of one parent |
| `RefreshTokens.RunKeepsInv` | app/modules/auth/service.py:444-486 | every event keeps the invariant that ties open transactions to the committed rows they lock |
| `RefreshTokens.CommitKeepsFamilies` | app/modules/auth/service.py:360-370 | a commit leaves at most one live row in each family |
| `RefreshTokens.CommitKeepsLineage` | app/modules/auth/service.py:318-370 | a commit keeps families rooted in existing rows, parents consumed and children unique |
| `RefreshTokens.RunGrows` | app/modules/auth/service.py:489-605 | over any run rows are never removed, never change owner or family, and never lose their revocation |
| `RefreshTokens.RevokedForEver` | app/modules/auth/service.py:489-496 | a row revoked at one moment is revoked at every later one |
| `RefreshTokens.ExchangeNeedsConditionalClaim` | app/modules/auth/service.py:476-482 | a token is exchanged at most once in all runs if and only if the claiming UPDATE re-checks that the row is unrevoked |
| `RefreshTokens.UnconditionalDoubleExchange` | app/modules/auth/service.py:476-482 | without the condition, a run in which one token is exchanged twice |
| `RefreshTokens.TokenTable.ClaimRow` | app/modules/auth/service.py:476-482 | the conditional UPDATE reports one row exactly when the row was unrevoked, is the protocol's claim step and leaves the table in a state some run reaches |
| `RefreshTokens.TokenTable.IssueTokens` | app/modules/auth/service.py:318-370 | the child row is inserted in the claiming transaction under a fresh id with the claimed row for parent |
| `RefreshTokens.TokenTable.RevokeAll` | app/modules/auth/service.py:489-605 | for every state: marks exactly the user's unrevoked rows that nobody else holds, but for the session kept, waits on those that somebody does, and is a run of the protocol |
| `RefreshTokens.TokenTable.RevokeSessions` | app/modules/auth/service.py:489-605 | with its commit, when nobody holds a row: exactly the rows revoked before and the user's, but the one kept, are revoked; every other row, of any user, is unchanged |
| `RefreshTokens.TokenTable.RevokeSession` | app/modules/auth/service.py:537-567 | found exactly when the row is there, live and the user's own; then that row and no other is revoked |
| `RefreshTokens.BulkRevocationIsComplete` | app/modules/auth/service.py:489-605 | whatever runs meanwhile: when a bulk revocation commits, every row the user had when it began, but the one kept, is revoked, and its commit touches rows of that user only |
| `RefreshTokens.RefreshGoesThrough` | app/modules/auth/service.py:444-486 | in every reachable state a refresh with a live row that nobody holds revokes that row, adds one live child of the same user and family, and changes nothing else |
| `RefreshTokens.RefreshIsRefused` | app/modules/auth/service.py:444-482 | a missing or revoked row begins no refresh, and one revoked before the claim changes nothing |
| `RefreshTokens.LoginGoesThrough` | app/modules/auth/service.py:318-370 | a login adds one live row of the user that founds a family, and nothing else |
| `RefreshTokens.RequestsBegin` | app/modules/auth/service.py:444-605 | exactly which requests begin |
| `RefreshTokens.TokenTable.CommitTxn` | app/modules/auth/service.py:485-486 | claim and child become visible together; afterwards one live row per family, each token exchanged once, lineage intact, and no committed row lost or revived |
| `RefreshTokens.CommitLaws` | app/modules/auth/service.py:485-486 | the same of every commit in every reachable state |
| `Menus.LogReconstructsMenus` | app/modules/catalog/menu_service.py:221-924 | after any sequence of operations, failed ones included, replaying the audit log gives exactly the existing menus and which are active |
| `Menus.ApplyKeepsReplay` | app/modules/catalog/menu_service.py:542-924 | each successful operation keeps log and menus in agreement |
| `Menus.ApplyKeepsSound` | app/modules/catalog/menu_service.py:542-924 | every operation, and every change of a product, keeps the rows well formed, active menus offering enough, and the log replaying to the publication |
| `Menus.ApplyKeepsOthers` | app/modules/catalog/menu_service.py:542-924 | an operation on one menu leaves every other menu, with its groups and their items, as it was |
| `Menus.ReplayUpdate` | app/modules/catalog/menu_service.py:574-644 | the entries an update writes replay to exactly the change of the active flag |
| `Menus.RunKeepsStructure` | app/modules/catalog/menu_service.py:542-924 | every reachable state is well formed (rows refer to rows, 1 <= min <= max, a product once per group) and its active menus offer enough items |
| `Menus.ElsewhereKeepsOfferable` | app/modules/catalog/menu_service.py:221-241 | what happens to other menus or to products leaves a menu's offer intact |
| `Menus.UpdateChecksOfferable` | app/modules/catalog/menu_service.py:574-644 | a menu that an update leaves active offers enough |
| `Menus.ActiveMenusHoldChoices` | app/modules/catalog/menu_service.py:66-85 | in every reachable state an active menu has a group, each with 1 <= min <= max and at least min distinct products, whatever became inactive meanwhile |
| `Menus.CountProducts` | app/modules/catalog/models.py:182-205 | items of one group are as many as their distinct products |
| `MenuService.PublishableIffNoProblem` | app/modules/catalog/menu_service.py:66-85 | publishable means that no problem exists |
| `MenuService.MenuStore.PublishabilityErrors` | app/modules/catalog/menu_service.py:66-85 | the loop lists exactly the problems |
| `MenuService.MenuStore.DeactivateForCompositionChange` | app/modules/catalog/menu_service.py:221-241 | the menu ends inactive, with a log entry exactly when it was active |
| `MenuService.MenuStore.CreateMenu` | app/modules/catalog/menu_service.py:542-571 | keeps the store valid and every other menu untouched, and on error changes nothing; a new menu is an inactive draft without groups, and nothing else changes publication |
| `MenuService.MenuStore.UpdateMenu` | app/modules/catalog/menu_service.py:574-644 | keeps the store valid and every other menu untouched, and on error changes nothing; on success each field is the patch's value where it gives one and the old one otherwise, groups and items stay, a menu left active is publishable, and constraints are reported before publishability |
| `MenuService.MenuStore.DeleteMenu` | app/modules/catalog/menu_service.py:647-666 | keeps the store valid and every other menu untouched, and on error changes nothing; nothing of the menu is left, neither row, group nor item, nor in the replayed log |
| `MenuService.MenuStore.CreateGroup` | app/modules/catalog/menu_service.py:669-696 | keeps the store valid and every other menu untouched, and on error changes nothing; the menu ends inactive with one group more, which is empty |
| `MenuService.MenuStore.UpdateGroup` | app/modules/catalog/menu_service.py:699-749 | keeps the store valid and every other menu untouched, and on error changes nothing; items and the set of groups stay, and a change unpublishes the menu |
| `MenuService.MenuStore.DeleteGroup` | app/modules/catalog/menu_service.py:752-778 | keeps the store valid and every other menu untouched, and on error changes nothing; the menu ends inactive without the group, and no item of it is left |
| `MenuService.MenuStore.AddGroupItem` | app/modules/catalog/menu_service.py:781-849 | keeps the store valid and every other menu untouched, and on error changes nothing; the menu ends inactive and the group offers exactly one product more, active and not offered before; a constraint violated on insertion is reported as a duplicate |
| `MenuService.MenuStore.UpdateGroupItem` | app/modules/catalog/menu_service.py:852-887 | keeps the store valid and every other menu untouched, and on error changes nothing; the group offers the same products, and a change unpublishes the menu |
| `MenuService.MenuStore.DeleteGroupItem` | app/modules/catalog/menu_service.py:890-924 | keeps the store valid and every other menu untouched, and on error changes nothing; the menu ends inactive and the group offers all its products but that one |
| `MenuEffects.CreateMenuExactly` | app/modules/catalog/menu_service.py:542-571 | created exactly when a draft that meets the constraints; the row and the log entry written |
| `MenuEffects.UpdateMenuExactly` | app/modules/catalog/menu_service.py:574-644 | the row written is, field by field, the patch's value or the old one; success exactly when it meets the constraints and, if active, the menu is publishable |
| `MenuEffects.UpdateMenuLogs` | app/modules/catalog/menu_service.py:610-640 | the entries added tell exactly whether anything, the price and the publication changed, the publication last |
| `MenuEffects.PublishedIff` | app/modules/catalog/menu_service.py:574-644 | in a sound state a draft is published if and only if it is publishable; only its flag changes and the log ends in the publication |
| `MenuEffects.PublicationReached` | app/modules/catalog/menu_service.py:574-644 | a reachable state whose draft does become active |
| `MenuEffects.ComposedReached` | app/modules/catalog/menu_service.py:542-849 | that state is reached |
| `MenuEffects.DeleteMenuExactly` | app/modules/catalog/menu_service.py:647-666 | deleted exactly when there; exactly its groups and their items go |
| `MenuEffects.CreateGroupExactly` | app/modules/catalog/menu_service.py:669-696 | when a group is created, and the row, the switched-off menu and the log entries written |
| `MenuEffects.UpdateGroupExactly` | app/modules/catalog/menu_service.py:699-749 | the merged row field by field, when it is accepted, and that an update without change leaves everything alone |
| `MenuEffects.DeleteGroupExactly` | app/modules/catalog/menu_service.py:752-778 | deleted exactly when there under that menu; exactly its items go |
| `MenuEffects.AddItemExactly` | app/modules/catalog/menu_service.py:781-849 | when an item is added, which error otherwise, and the row written |
| `MenuEffects.UpdateItemExactly` | app/modules/catalog/menu_service.py:852-887 | when an item is moved, and that only its position changes |
| `MenuEffects.DeleteItemExactly` | app/modules/catalog/menu_service.py:890-924 | when an item is deleted, and that only it goes |
| `MenuService.OutcomeIsSound` | app/modules/catalog/menu_service.py:542-924 | whatever the outcome of an operation, the log replays to the publication, active menus offer enough and other menus are untouched |
| `MenuService.UpdatedIsPublishable` | app/modules/catalog/menu_service.py:574-644 | a menu that an update leaves active has a group and only active products, enough of them in each group |
| `MenuService.DeletedLeavesNothing` | app/modules/catalog/menu_service.py:647-666 | no row, group, item or replayed entry of a deleted menu is left |
| `MenuService.CompositionUnpublishes` | app/modules/catalog/menu_service.py:221-241 | whatever changes the composition of a menu leaves it inactive |
| `MenuService.AddedItemOffersProduct` | app/modules/catalog/menu_service.py:781-849 | the group offers one product more, which it did not offer before |
| `MenuService.DeletedItemWithdrawsProduct` | app/modules/catalog/menu_service.py:890-924 | the group offers all but the item's product, which no other item of it offers |
| `PublicMenus.GroupByMenu` | app/modules/catalog/menu_service.py:304-306 | the dictionary holds each menu's groups in query order |
| `PublicMenus.CompletePublicMenuIds` | app/modules/catalog/menu_service.py:280-312 | the counting filter returns exactly the menus that have a group and enough active products in every group |
| `PublicMenus.CountedIffComplete` | app/modules/catalog/menu_service.py:280-312 | the counts of the grouped query decide completeness |
| `PublicMenus.ActiveItemsByGroup` | app/modules/catalog/menu_service.py:354-362 | each group's active items in query order |
| `PublicMenus.BuildGroup` | app/modules/catalog/menu_service.py:443-478 | products in order, available exactly when enough of them are |
| `PublicMenus.BuildGroups` | app/modules/catalog/menu_service.py:437-480 | complete exactly when every group has enough rows, with the unavailable groups listed in order |
| `PublicMenus.BuildPublicMenuOutputs` | app/modules/catalog/menu_service.py:428-497 | the nested loops compute the reference listing |
| `PublicMenus.SameCount` | app/modules/catalog/menu_service.py:354-362 | the builder finds as many rows for a group as the filter counted |
| `PublicMenus.ShownIffComplete` | app/modules/catalog/menu_service.py:428-497 | the builder emits a menu exactly when it is complete |
| `PublicMenus.BuilderMatchesFilter` | app/modules/catalog/menu_service.py:280-497 | the ids the builder emits are, in order, those the filter selects |
| `PublicMenus.PageMenus` | app/modules/catalog/menu_service.py:500-521 | a page is its slice of the filtered list and `total` the list's length |
| `PublicMenus.PageIsComplete` | app/modules/catalog/menu_service.py:500-521 | the page that is built shows exactly the menus counted for it |
| `PublicMenus.PagesListEachMenuOnce` | app/modules/catalog/menu_service.py:500-521 | all pages together list each visible complete menu once, in order |
| `PublicMenus.GettableIffListed` | app/modules/catalog/menu_service.py:524-539 | a menu can be fetched if and only if it is listed, and every active, in-window, publishable one is |
| `PublicMenus.ListedIff` | app/modules/catalog/menu_service.py:272-312 | a menu is listed exactly when it is active, its window has begun and not ended, it has a group, and every group has at least its minimum of items with an active product |
| `PublicOutputs.OutputsShowMenus` | app/modules/catalog/menu_service.py:428-497 | a menu is shown with its row, exactly its groups in order, in each exactly its active items in order with product, position and availability, each group available exactly when enough products are, the menu exactly when all groups are, and the unavailable ones named |
| `PublicOutputs.ListedInOrder` | app/modules/catalog/menu_service.py:505-521 | menus are listed by position, name and id |
| `PublicMenus.SelectionExists` | app/modules/catalog/menu_service.py:315-321 | the ordered query always has a result, so the theorems are not vacuous |
| `SyncLock.SafeIffLockOutlivesJob` | worker/tasks/catalog_sync.py:106-170 | no overlap and no deletion of another job's lock in all runs, if and only if the timeout is below the lock's time to live |
| `SyncLock.DeployedIsSafe` | worker/main.py:106 | the deployed constants give both |
| `SyncLock.RunKeepsInv` | app/modules/catalog/sync_guards.py:37-62 | every synchronising job still owns the lock it took |
| `SyncLock.LockStepsExactly` | app/modules/catalog/sync_guards.py:37-62 | a waiting job gets the lock exactly when the key is absent or its time is over, and otherwise ends; a release removes the key |
| `SyncLock.Overlap` | worker/tasks/catalog_sync.py:26 | with a lock no longer than the job, a run with two jobs in the critical section |
| `SyncLock.CrashBlocksAtMostTtl` | worker/tasks/catalog_sync.py:26 | a crashed holder's lock is gone after at most its time to live, however the run goes on |
| `RateLimit.BoundedPerWindow` | app/modules/catalog/sync_guards.py:14-34 | for every bound on the delay between clock and INCR: per connection and minute at most the limit, and once more for every minute or part of one of delay; at most twice that in any half-open minute |
| `RateLimit.QuotaIsLeastBound` | app/modules/catalog/sync_guards.py:29-34 | a number bounds the calls allowed per window in all runs if and only if it is not below that quota |
| `RateLimit.ExactWithoutDelay` | app/modules/catalog/sync_guards.py:29-34 | without delay a window allows exactly as many calls as it sees, up to the limit |
| `RateLimit.BoundedIffNoDelay` | app/modules/catalog/sync_guards.py:29-34 | the bound holds in all runs if and only if there is no delay or the limit is not positive |
| `RateLimit.LateCall` | app/modules/catalog/sync_guards.py:29-34 | with a delay of a second, a run that allows one call too many |
| `RateLimit.IntervalInTwoWindows` | app/modules/catalog/sync_guards.py:29-34 | a half-open minute sees no more allowed calls than its two windows |
| `RateLimit.RunKeepsInv` | app/modules/catalog/sync_guards.py:29-34 | without delay a counter never expires inside its own window and counts every call of it |
| `RateLimit.RunKeepsDelayInv` | app/modules/catalog/sync_guards.py:29-34 | with delay, the n-th counter of a window was created n - 1 windows after its start or later and lives into the next |
| `SyncGuards.Redis.CheckRateLimit` | app/modules/catalog/sync_guards.py:14-34 | allows a call exactly when the window has counted fewer than the limit, counts it, and is the limiter's steps read, increment and, on the first call, expire |
| `SyncGuards.Redis.AcquireSyncLock` | app/modules/catalog/sync_guards.py:37-51 | is the protocol's acquire step, true exactly when the key was absent or expired |
| `SyncGuards.Redis.ReleaseSyncLock` | app/modules/catalog/sync_guards.py:54-62 | is the protocol's release step and deletes the key whoever set it |
| `Normalize.NormalizeCatalog` | app/modules/catalog/normalize.py:46-108 | for every payload: which error, or one entry for each product with a SKU, in order |
| `Normalize.MapProducts` | app/modules/catalog/normalize.py:76-108 | success exactly when every product maps; otherwise the first bad product decides the error and its index |
| `NormalizedEntries.EntriesDescribeProducts` | app/modules/catalog/normalize.py:46-108 | one entry for each product with SKUs, in order: external id, name, description, price and flag of the first SKU, tax of the first channel that counts, no image, and the name of the last category with its id, all read off the payload |
| `NormalizedEntries.MappedIffDescribed` | app/modules/catalog/normalize.py:78-104 | a product maps to an entry if and only if the entry is what the product says |
| `NormalizedEntries.NormalizesIff` | app/modules/catalog/normalize.py:76-108 | a well-shaped payload normalises if and only if each product has no SKUs or says what an entry needs |
| `NormalizedEntries.PassedOverIff` | app/modules/catalog/normalize.py:79-84 | a product is passed over exactly when it is an object without SKUs |
| `NormalizedEntries.CategoryFound` | app/modules/catalog/normalize.py:70-74 | looking an id up finds the last category with it |
| `Normalize.PayloadEscapesIff` | app/modules/catalog/normalize.py:46-108 | for every payload: an AttributeError gets through if and only if it is no object or its first bad product raises one, a TypeError if and only if its categories cannot be iterated over, an OverflowError if and only if its first bad product raises one, and nothing else does |
| `Normalize.ProductEscapesIff` | app/modules/catalog/normalize.py:78-107 | a product raises an AttributeError if and only if it is not an object, or its first SKU's restrictions are not and nothing evaluated before them failed; an OverflowError if and only if its price, or with a good price its tax rate, is an integer beyond the floats |
| `Normalize.NullProductEscapes` | app/modules/catalog/normalize.py:78-81 | a payload with a null product ends in an AttributeError |
| `Normalize.BigPriceEscapes` | app/modules/catalog/normalize.py:95-104 | a payload with any integer price beyond the floats ends in an OverflowError |
| `Normalize.NullCategoriesEscape` | app/modules/catalog/normalize.py:70-74 | a payload with null for its categories ends in a TypeError |
| `Normalize.NormalizesToOne` | app/modules/catalog/normalize.py:46-108 | what a payload normalises to is determined |
| `Normalize.ChannelPriority` | app/modules/catalog/normalize.py:32-43 | the rate is that of the first channel that is not null among eat-in, delivery and collection |
| `CatalogSync.Tenant.IndexExisting` | worker/tasks/catalog_sync.py:55-56 | the dictionary points at exactly the products with an external id |
| `CatalogSync.Tenant.LoadCatalog` | worker/tasks/catalog_sync.py:58-71 | after the first loop, a last-entry-wins upsert, and the ids seen are those listed |
| `CatalogSync.Tenant.SwitchOffUnseen` | worker/tasks/catalog_sync.py:73-75 | exactly the synchronised products not seen become inactive, other fields kept |
| `CatalogSync.Tenant.MaterializeProducts` | worker/tasks/catalog_sync.py:43-75 | listed ids take their last entry's values, unlisted ones go inactive, products without external id are untouched, none is removed or renumbered, ids stay unique |
| `CatalogSync.Tenant.StoreCatalog` | worker/tasks/catalog_sync.py:143-165 | an empty catalogue is refused exactly when it would replace a filled snapshot; products and snapshot are committed together or neither changes |
| `CatalogSync.UpsertIdempotent` | worker/tasks/catalog_sync.py:55-75 | a second run with the same catalogue changes nothing |
| `CatalogSync.UpsertAgrees` | worker/tasks/catalog_sync.py:55-75 | after an upsert the products are what the catalogue prescribes |
| `CatalogSync.UpsertInDetail` | worker/tasks/catalog_sync.py:58-75 | product by product: the six fields of the last entry, all else kept; only the flag of those no longer listed; nothing of those without external id; new ones only for listed ids |
| `CatalogSync.LastEntryIsLast` | worker/tasks/catalog_sync.py:58-71 | the entry that counts is the last with its external id |
| `CatalogSync.SyncedIff` | worker/tasks/catalog_sync.py:88-165 | exactly when a run synchronises |
| `CatalogSync.LastSuccessStands` | worker/tasks/catalog_sync.py:106-165 | after the last success, whatever failed since, products and snapshot are those it committed |
| `CatalogSync.SnapshotAgrees` | app/modules/catalog/snapshot_repository.py:51-67 | for a tenant with one connection, products and committed snapshot agree after every run |
| `CatalogSync.SnapshotStaysFilled` | worker/tasks/catalog_sync.py:141-161 | a snapshot that is not empty never becomes empty |
| `CatalogSync.SecondConnectionAgreesIff` | worker/tasks/catalog_sync.py:55-75 | after a second catalogue the products agree with the first if and only if, for every external id, both prescribe the same, absence prescribing inactive |
| `CatalogSync.PricesClash` | worker/tasks/catalog_sync.py:60-71 | two catalogues with two prices for one id: the products agree with the second only |
| `SyncJob.SyncCatalogFromHub` | worker/tasks/catalog_sync.py:88-170 | the run from lock to release is one of the runs the laws speak of, with the lock's and the limiter's decision and the parser's answer for its catalogue; its outcome; and the lock is released whenever it was taken |
| `SyncJob.FetchCatalog` | worker/tasks/catalog_sync.py:120-141 | there is a catalogue exactly when the payload arrived and normalises, and it is what it normalises to |
| `SyncJob.MalformedChangesNothing` | worker/tasks/catalog_sync.py:120-141 | a payload that does not normalise, with whatever error, leaves products and snapshots as they were |
| `SyncJob.NothingPricedKeepsSnapshot` | worker/tasks/catalog_sync.py:141-161 | a payload without any product that has a SKU leaves a filled snapshot, and the products, as they were |
| `SyncJob.StoredCatalog` | worker/tasks/catalog_sync.py:120-165 | the catalogue a run stores, item by item, is what the payload's products with SKUs say |
| `OrderExpiration.TenantOrders.ExpirePayments` | worker/tasks/order_expiration.py:75-100 | exactly the order's pending payments become expired and keep their order |
| `OrderExpiration.TenantOrders.CancelBatch` | worker/tasks/order_expiration.py:51-100 | exactly the chosen orders are cancelled, each with one history and one audit row, and their pending payments expire |
| `OrderExpiration.WorkerGoesThrough` | worker/tasks/order_expiration.py:36-100 | whatever the SELECT finds among orders nobody holds, in any state, a worker can lock, cancel and commit, with the effect of its loop |
| `OrderExpiration.RunShrinks` | worker/tasks/order_expiration.py:36-50 | a run with any later cutoff takes 100 of the orders stale at an earlier instant, or all of them, because the oldest come first |
| `OrderExpiration.DrainedInCeiling` | worker/tasks/order_expiration.py:32-100 | over runs with cutoffs of their own, while orders arrive and become stale: the n orders stale at the start are gone after k runs if and only if k is at least n/100 rounded up |
| `OrderExpiration.CancelledOncePerOpening` | worker/tasks/order_expiration.py:32-100 | with any workers and payers, and whatever others write: an order has at most one cancellation on record more than it was reopened, and one audit row for each |
| `OrderExpiration.AtMostOnceIff` | worker/tasks/order_expiration.py:32-100 | for every policy of other writers, all runs cancel each order at most once if and only if no chain of permitted writes leads from a cancelled unpaid order to a pending unpaid one |
| `OrderExpiration.CancelledAtMostOnce` | app/modules/orders/service.py:89-100 | while everybody follows the order graph, the kitchen's reopening of a ready order included, each order is cancelled at most once |
| `OrderExpiration.ExternalCancelsTwice` | app/modules/orders/service.py:57-62 | under an external authority, a run in which one order is cancelled twice |
| `OrderExpiration.CommitCancelsStaleOnly` | worker/tasks/order_expiration.py:36-100 | a commit in any reachable state cancels its batch, every order of which is still pending, unpaid and old, adds exactly one history and one audit row for each, and touches no other order |
| `OrderExpiration.PaymentsExpireTogether` | worker/tasks/order_expiration.py:75-100 | a pending payment read while cancelling its order expires in the commit that cancels it, whatever happens between |
| `OrderExpiration.MarksKept` | worker/tasks/order_expiration.py:75-100 | nothing another transaction does unmarks a worker's payments |
| `SvgSanitize.Document.ParentMap` | app/core/services/cloudinary.py:100-102 | the map sends each child of the listed elements to a parent that holds it |
| `SvgSanitize.Document.BlockedElements` | app/core/services/cloudinary.py:103-111 | the list holds exactly the blocked elements that have a parent, each with it |
| `SvgSanitize.Document.RemoveAll` | app/core/services/cloudinary.py:112-116 | removing one by one leaves every list of children without the listed elements and otherwise as it was |
| `SvgSanitize.Document.CleanElement` | app/core/services/cloudinary.py:119-134 | exactly the dangerous attributes of the element go |
| `SvgSanitize.Document.SanitizeSvg` | app/core/services/cloudinary.py:96-134 | the tree the changed document spells out is the recursively pruned and cleaned one |
| `SvgSanitize.CleanKeepsSurvivors` | app/core/services/cloudinary.py:96-134 | the result holds, in document order, exactly the elements with no blocked element on the way from below the root to themselves, in their old places, with exactly their harmless attributes |
| `SvgSanitize.CleanIsSafe` | app/core/services/cloudinary.py:96-134 | no blocked element below the root and no dangerous attribute on an element, for any rules |
| `SvgSanitize.SanitizedSvgIsSafe` | app/core/services/cloudinary.py:54-134 | the same, spelled out for the tags and attributes of the source |
| `SvgSanitize.AttributesKept` | app/core/services/cloudinary.py:119-134 | an element keeps exactly the attributes that are neither event handlers nor links that, after any white space and in any case, begin with one of the two prefixes |
| `SvgSanitize.StrippedBegins` | app/core/services/cloudinary.py:131 | stripping and lower-casing finds a prefix exactly where it stands after white space in any case |
| `SvgSanitize.ElementsBlocked` | app/core/services/cloudinary.py:60 | exactly which elements are refused |
| `SvgSanitize.FreeOfBlockedIffRootAllowed` | app/core/services/cloudinary.py:109-111 | nothing blocked remains at all if and only if the root is not blocked |
| `SvgSanitize.CleanIdempotent` | app/core/services/cloudinary.py:96-134 | sanitising twice changes nothing more |
| `SvgSanitize.LocalFollowsBrace` | app/core/services/cloudinary.py:106-125 | the local name is all that follows the last closing brace |
| `RecipeDedupe.RecipeTable.Dedupe` | alembic/versions/0067_stock_recipe_constraints_costs.py:22-81 | the four statements leave the reference table |
| `RecipeDedupe.StatementsMerge` | alembic/versions/0067_stock_recipe_constraints_costs.py:22-81 | delete, sum into the lowest row, delete the others and fill units is one merge per pair |
| `RecipeDedupe.DedupedUniquePositive` | alembic/versions/0067_stock_recipe_constraints_costs.py:22-81 | pairs are unique and quantities positive, as the constraints added next need |
| `RecipeDedupe.PairConserved` | alembic/versions/0067_stock_recipe_constraints_costs.py:22-81 | a pair keeps a row exactly when it had a positive one: the lowest, holding the sum of the positive ones |
| `RecipeDedupe.KeptRowsUnit` | alembic/versions/0067_stock_recipe_constraints_costs.py:68-81 | a kept row keeps its unit, or takes its ingredient's where it had none |
| `RecipeDedupe.TotalConserved` | alembic/versions/0067_stock_recipe_constraints_costs.py:22-81 | the table's total is the sum of all positive quantities before |
| `RecipeDedupe.DedupeIdempotent` | alembic/versions/0067_stock_recipe_constraints_costs.py:22-81 | a second application changes nothing |
| `SizeLimit.Limiter.WrappedReceive` | app/core/http/request_size_limit.py:130-140 | after every call: never more than the limit received so far, rejected exactly when more was asked for, exactly one response then, and until then every message passed unchanged |
| `SizeLimit.Limiter.Call` | app/core/http/request_size_limit.py:95-158 | an oversized Content-Length is refused with one response and no read; otherwise the application sees the specified reads, and its exception goes on exactly when nothing was rejected |
| `SizeLimit.ReadsStory` | app/core/http/request_size_limit.py:109-140 | after any number of reads: never more than the limit received; rejected exactly when the bytes asked for exceed it, with exactly one response; otherwise all messages unchanged |
| `SizeLimit.BytesPerKind` | app/core/http/request_size_limit.py:53-79 | ten megabytes for image uploads, five for other CSV imports and one for all else bound what is delivered, and more is rejected |
| `SizeLimit.OnlyDisconnectsAfter` | app/core/http/request_size_limit.py:130-140 | once rejected, every later read is a disconnect and nothing else happens |
| `SizeLimit.VerdictIgnoresChunks` | app/core/http/request_size_limit.py:109-140 | for an application that reads to the end the verdict depends on the body's size only, and an accepted body arrives whole |

## Left out

- Cryptography and token formats (JWT, bcrypt, TOTP, Fernet), super-admin sessions and impersonation, expiry of tokens: refresh tokens are row ids, and a lookup is a choice of row.
- Whether a descendant of an old token survives a concurrent password reset: it depends on statement snapshots.
- HTTP routers, schemas, CORS, settings, logging, email, SMS, Stripe, Cloudinary uploads, hub calls and statistics: foreign services appear only as errors that may happen.
- All migrations but 0067, delivery estimates, HACCP reminders and the backup check: they would only add easy members, or depend on code that is not part of this model.
- SearchPath.PooledRefinesPrivate: a helper's path is what the helper deposits; that session code itself never issues `SET search_path` is an assumption for sessions with a path, while raw sessions may set any path.
- SearchPath: the pool's own rollback may come before or after the check-in hook; a hook that raises, or that returns early, discards the connection.
- Provisioning.Server.ProvisionTenant: columns, constraints and what callbacks write besides one audit row are abstract; as a method an attempt runs alone, and `ProvisioningRace` lets attempts interleave at their INSERT, CREATE SCHEMA and commit.
- Provisioning.Server.ProvisionTenant: the id sequence is not rolled back, as in PostgreSQL.
- Audit.BuildReport: the sorting of orphans and incomplete schemas is not modelled; they are a set and a map.
- Slugs.ClipAscii: PostgreSQL drops a character cut in two where the audit puts a replacement character; the difference is outside ASCII only, and lookup slugs are ASCII.
- Menus: names, descriptions and images are one text; actors, timestamps and metadata of log entries are not modelled.
- MenuService.MenuStore.PublishabilityErrors: the order of the messages is not stated.
- PublicMenus.BuilderMatchesFilter: the queries of one request read one snapshot of the database; product summaries, variants, extras and images are abstract, and availability is any function of the product.
- Normalize.NormalizeCatalog: Python's `str`, `float` on strings, the range of floats and the schema's reading of a flag are parameters; rounding, not-a-number and infinities are not modelled.
- SyncJob.SyncCatalogFromHub: no time passes inside the method; what happens when it does is the business of `SyncLock` and `RateLimit`.
- CatalogSync.SnapshotAgrees: edits of products by administrators between runs, and concurrent runs for different connections of one tenant, are not modelled; runs of one connection are kept apart by `SyncLock`.
- OrderExpiration: the customer notice of a cancellation, the history rows that other writers add and the loop over tenants are left out.
- SvgSanitize.Document.SanitizeSvg: parsing and printing, text and tail content are left out; lower-casing is ASCII, which is exact for the two prefixes. Elements are ids with a list of children each, so identity and in-place update are kept and memory layout is not.
- RecipeDedupe.RecipeTable.Dedupe: database rounding and overflow of quantities are not modelled; quantities are reals.
- SizeLimit.Limiter.Call: the two regular expressions on paths are parameters of the choice of the limit; scopes other than http and the parsing of the header are left out.
