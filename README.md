# Per-module access control, modelled in Dafny

The system is a modular Laravel portal. Each pluggable feature is a *module*, a record in the
`modulos` registry with a unique technical name, an active flag and a display order. Whether a
user may use a module is decided by two tables, each holding at most one row per user and module:

- `modulo_usuario_acceso`: may the user open the module at all, since when, until when
  (`acceso_expira_en`, empty for "never"), and on whose authority;
- `modulo_usuario_roles`: which role (`viewer`, `editor`, `admin`) the user holds inside the
  module, whether that assignment is active, and until when.

The `HasModuleAccess` trait on the user model answers questions over these tables:
- "has access", "role in the module", "holds exactly this role";
- "may perform an action needing this role", through the fixed hierarchy viewer < editor < admin;
- "which modules make up my menu".

It also changes the tables: it grants access and assigns roles as upserts on the `(user, module)`
pair, and revokes both for a module at once. The three Eloquent models add query scopes (filters
and a sort) and relations that match rows to registry records by module name.

The project is split into these modules:

| Dafny module | file | models |
|---|---|---|
| `Common` | common.dfy | `Option`, user ids, instants and the strict expiry comparison `expiry > now` |
| `Query` | query.dfy | a `where` clause as an order-preserving filter over the rows a query returns, with its algebra |
| `Registry` | registry.dfy | `Modulo`: the record, `activos`, `ordenadosPorPrioridad` and lookup by name |
| `AccessGrants` | access_grants.dfy | `ModuloUsuarioAcceso`: the row, `conAcceso`, `activos`, `modulo()`, `usuariosConAcceso()` |
| `RoleAssignments` | role_assignments.dfy | `ModuloUsuarioRoles`: the row, `activos`, `porModulo`, `porRol`, `modulo()`, `usuariosConRoles()` |
| `ModuleAccess` | module_access.dfy | `HasModuleAccess`: queries, hierarchy, the three mutators as functions, and the store as a class |
| `SeedScenario` | seed_scenario.dfy | the initial provisioning replayed on the model, and what it gives each seeded user |

Each table is a `map` from the `(user_id, nombre_modulo)` pair to the row. Because of the unique
index, there is one row per pair. The rows also carry the pair, and the predicates `AccessKeyed`
and `RolesKeyed` state that every row is stored under its own pair. The current instant, PHP's
`now()`, is an explicit integer parameter, and so is the user the trait is attached to
(`$this->id`).

The three mutators change state in place in the source, so `ModuleAccessStore` is a class with
the three tables as fields. Its methods say in `ensures` that each new table equals a pure
transition function (`GrantAccess`, `AssignRole`, `RevokeAccess`, `DeactivateRole`) applied to the
old one, and that the `Valid()` invariant (the unique indexes) is kept. The properties that relate
several calls are lemmas about those functions.

A scope or `where` chain becomes a `Query.Filter` over the sequence of rows the query would
return. Scopes are composed by applying filters one after the other. For `activos` in
`ModuloUsuarioAcceso`, which is a bare `whereNull ... orWhere ...`, this is a conjunction,
because Laravel puts a scope's own `or` conditions in a nested group when the scope is applied.
The model takes that grouping as given.

## Model

| member | source | states |
|---|---|---|
| `Query.Filter` | app/Models/ModuloUsuarioRoles.php:58-66 | a `where` keeps exactly the rows satisfying the predicate, each as often as in the input, as an order-preserving subsequence |
| `Query.FilterIdempotent` | app/Models/ModuloUsuarioAcceso.php:48-57 | applying the same scope twice equals applying it once |
| `Query.FilterConjunction` | app/Models/Traits/HasModuleAccess.php:16-22 | two chained `where` clauses keep the rows satisfying both predicates |
| `Query.FilterCommutes` | app/Models/ModuloUsuarioRoles.php:49-66 | two filters chained in either order give the same rows in the same order |
| `Query.FilterKeepsOrder` | app/Models/Modulo.php:47-55 | filtering keeps every pairwise ordering of the input, so a sorted input stays sorted |
| `Query.FilterSameRows` | app/Models/Modulo.php:47-55 | filtering two rearrangements of the same rows gives rearrangements of the same result |
| `Query.FilterKeepsAll` | app/Models/Modulo.php:47-50 | a `where` that every row satisfies returns its input unchanged |
| `Registry.Activos` | app/Models/Modulo.php:47-50 | `activos` keeps exactly the modules whose active flag is set, in order |
| `Registry.ActivosIdempotent` | app/Models/Modulo.php:47-50 | `activos` applied twice equals `activos` applied once |
| `Registry.InsertByOrden` | app/Models/Modulo.php:52-55 | inserting into a sequence sorted by display order keeps it sorted and adds exactly that record |
| `Registry.OrdenadosPorPrioridad` | app/Models/Modulo.php:52-55 | `orderBy('orden_mostrar')` returns a permutation of its input, non-decreasing in display order |
| `Registry.ActivosOrdenados` | app/Models/Modulo.php:47-55 | both scopes, in either order, give a sorted sequence holding exactly the active modules, with their multiplicities |
| `Registry.FindByName` | app/Models/ModuloUsuarioAcceso.php:37-40 | the name lookup behind `belongsTo(Modulo, 'nombre_modulo', 'nombre')` finds a record of that name, or none exactly when none exists |
| `Registry.FindByNameUnique` | app/Models/ModuloUsuarioAcceso.php:37-40 | with unique names, looking up a registered record's name finds that record |
| `AccessGrants.ConAcceso` | app/Models/ModuloUsuarioAcceso.php:48-51 | `conAcceso` keeps exactly the rows whose access flag is set, in order |
| `AccessGrants.Activos` | app/Models/ModuloUsuarioAcceso.php:53-57 | `activos` keeps exactly the rows with no expiry or an expiry after `now`; it ignores the access flag |
| `AccessGrants.ScopesIdempotent` | app/Models/ModuloUsuarioAcceso.php:48-57 | each of the two scopes is idempotent |
| `AccessGrants.ScopesCompose` | app/Models/ModuloUsuarioAcceso.php:48-57 | the two scopes commute, and together keep exactly the rows in force, which is the condition `hasAccessToModule` applies |
| `AccessGrants.ModuloOf` | app/Models/ModuloUsuarioAcceso.php:37-40 | `modulo()` is a registry record named by the row's module name, or none when no record has that name |
| `AccessGrants.UsuariosConAcceso` | app/Models/Modulo.php:36-39 | `usuariosConAcceso()` holds exactly the grants whose module name is the module's name, in order |
| `AccessGrants.RelationsInverse` | app/Models/Modulo.php:36-39 | with unique names, a grant is among a registered module's `usuariosConAcceso()` exactly when that module is its `modulo()` |
| `RoleAssignments.Activos` | app/Models/ModuloUsuarioRoles.php:49-56 | `activos` keeps exactly the active rows with no expiry or an expiry after `now` |
| `RoleAssignments.PorModulo` | app/Models/ModuloUsuarioRoles.php:58-61 | `porModulo` keeps exactly the rows of that module |
| `RoleAssignments.PorRol` | app/Models/ModuloUsuarioRoles.php:63-66 | `porRol` keeps exactly the rows holding that role name |
| `RoleAssignments.ScopesIdempotent` | app/Models/ModuloUsuarioRoles.php:49-66 | each of the three scopes is idempotent |
| `RoleAssignments.ScopesCommute` | app/Models/ModuloUsuarioRoles.php:49-66 | any two of the three scopes commute |
| `RoleAssignments.ModuloOf` | app/Models/ModuloUsuarioRoles.php:38-41 | `modulo()` is a registry record named by the row's module name, or none when no record has that name |
| `RoleAssignments.UsuariosConRoles` | app/Models/Modulo.php:41-44 | `usuariosConRoles()` holds exactly the role rows whose module name is the module's name |
| `RoleAssignments.RelationsInverse` | app/Models/Modulo.php:41-44 | with unique names, a role row is among a registered module's `usuariosConRoles()` exactly when that module is its `modulo()` |
| `ModuleAccess.HierarchyLevel` | app/Models/Traits/HasModuleAccess.php:121-125 | the `$hierarchy` table has an entry exactly for the three known roles, each with a level from 1 to 3 |
| `ModuleAccess.UserLevel` | app/Models/Traits/HasModuleAccess.php:127 | a held role's level is its table entry, and 0 exactly when the role is unknown |
| `ModuleAccess.RequiredLevel` | app/Models/Traits/HasModuleAccess.php:128 | a required role's level is its table entry (at least 1), and 999 exactly when the role is unknown |
| `ModuleAccess.RoleHasPermission` | app/Models/Traits/HasModuleAccess.php:119-131 | the hierarchy spelled out role by role: viewer is met by any known role, editor by editor or admin, admin by admin only |
| `ModuleAccess.HierarchyMonotone` | app/Models/Traits/HasModuleAccess.php:119-131 | a stronger held role or a weaker requirement never withdraws a permission |
| `ModuleAccess.HierarchyFailsClosed` | app/Models/Traits/HasModuleAccess.php:127-128 | an unknown required role (level 999) is never met; an unknown held role (level 0) meets nothing; a role meets itself exactly when it is known |
| `ModuleAccess.HasAccessToModule` | app/Models/Traits/HasModuleAccess.php:14-24 | access implies that a row for the pair exists with the flag set; an expiry equal to `now` denies access |
| `ModuleAccess.AccessAgreesWithScopes` | app/Models/Traits/HasModuleAccess.php:14-24 | the keyed lookup agrees with the query over the user's grants: true exactly when one for the module survives `activos` and `conAcceso` |
| `ModuleAccess.GetRoleInModule` | app/Models/Traits/HasModuleAccess.php:29-41 | a role is returned exactly when the pair's row is active and unexpired, and it is that row's role; the access table is not consulted |
| `ModuleAccess.RoleAgreesWithScopes` | app/Models/Traits/HasModuleAccess.php:29-41 | the keyed lookup equals `first()` of the user's role rows filtered by module and by `activos`, and none when that query is empty |
| `ModuleAccess.HasRoleInModule` | app/Models/Traits/HasModuleAccess.php:46-49 | true exactly when the pair's row is in force and holds that exact role name |
| `ModuleAccess.HasRoleIsExact` | app/Models/Traits/HasModuleAccess.php:46-49 | holding one role makes no other role name held, whatever their rank |
| `ModuleAccess.PhpFalsy` | app/Models/Traits/HasModuleAccess.php:63 | the strings `if (!$userRole)` rejects, "" and "0", are not known roles, have level 0 and meet no requirement |
| `ModuleAccess.CanPerformInModule` | app/Models/Traits/HasModuleAccess.php:55-68 | true exactly when access is in force, an active role exists, and its level reaches the required level |
| `ModuleAccess.AccessGateDominates` | app/Models/Traits/HasModuleAccess.php:57-59 | without access in force nothing is permitted, whatever role is held |
| `ModuleAccess.CanPerformMonotone` | app/Models/Traits/HasModuleAccess.php:55-68 | whoever may perform an action needing one role may perform every action needing a role of lower or equal level |
| `ModuleAccess.UnknownRequirementRefused` | app/Models/Traits/HasModuleAccess.php:55-68 | a requirement outside the hierarchy is refused to every user |
| `ModuleAccess.AccessibleNames` | app/Models/Traits/HasModuleAccess.php:76-82 | every plucked name has a row for the user that is in force (on a keyed table), and every row of the user in force contributes its name |
| `ModuleAccess.AccessibleNamesExact` | app/Models/Traits/HasModuleAccess.php:75-82 | the plucked module names of the user's grants in force are exactly the names `hasAccessToModule` admits |
| `ModuleAccess.GetAccessibleModules` | app/Models/Traits/HasModuleAccess.php:73-87 | the result is sorted by display order and holds exactly the active registry records whose name has a grant in force, each as often as in the registry |
| `ModuleAccess.AccessibleModulesExact` | app/Models/Traits/HasModuleAccess.php:73-87 | a record is listed exactly when it is registered, active and admitted by `hasAccessToModule`; an inactive module stays out even with access in force |
| `ModuleAccess.WithRoles` | app/Models/Traits/HasModuleAccess.php:94-97 | each module, in order, is paired with the user's role in it |
| `ModuleAccess.GetModulesWithRoles` | app/Models/Traits/HasModuleAccess.php:92-98 | the accessible modules in their order, each paired with `getRoleInModule` for it |
| `ModuleAccess.ModulesWithRolesDecide` | app/Models/Traits/HasModuleAccess.php:92-98 | every listed module is registered and active, and there the permission check is decided by the listed role alone |
| `ModuleAccess.GrantAccess` | app/Models/Traits/HasModuleAccess.php:136-150 | the upsert adds the pair's key and no other; the pair's row has access, grant time `now`, the caller's grantor and notes, and its old expiry (none for a new row); other rows are unchanged; keying is kept |
| `ModuleAccess.GrantedAccess` | app/Models/Traits/HasModuleAccess.php:136-150 | after a grant, access holds exactly while the kept expiry has not passed: a new grant always gives access, and a re-grant does not revive an expired one |
| `ModuleAccess.GrantLatestWins` | app/Models/Traits/HasModuleAccess.php:136-150 | granting twice gives the table of the second grant alone |
| `ModuleAccess.GrantLeavesOneRow` | app/Models/Traits/HasModuleAccess.php:136-150 | after a grant exactly one row exists for the pair, and every other pair's access is as before |
| `ModuleAccess.AssignRole` | app/Models/Traits/HasModuleAccess.php:155-170 | the upsert adds the pair's key and no other; the pair's row holds the role, is active, has assignment time `now`, the caller's grantor and notes, and its old expiry; other rows are unchanged; keying is kept |
| `ModuleAccess.AssignedRole` | app/Models/Traits/HasModuleAccess.php:155-170 | after an assignment the user's role is the assigned one while the kept expiry has not passed, and none after |
| `ModuleAccess.AssignLatestWins` | app/Models/Traits/HasModuleAccess.php:155-170 | assigning twice gives the table of the second assignment alone |
| `ModuleAccess.AssignLeavesOneRow` | app/Models/Traits/HasModuleAccess.php:155-170 | after an assignment exactly one role row exists for the pair, and every other pair's role is as before |
| `ModuleAccess.RevokeAccess` | app/Models/Traits/HasModuleAccess.php:177-179 | the same keys; the pair's row, if any, loses its access flag and nothing else; other rows are unchanged; keying is kept |
| `ModuleAccess.DeactivateRole` | app/Models/Traits/HasModuleAccess.php:181-183 | the same keys; the pair's role row, if any, loses its active flag and nothing else; other rows are unchanged; keying is kept |
| `ModuleAccess.RevokeDenies` | app/Models/Traits/HasModuleAccess.php:175-184 | after revocation the user has, at any instant, no access, no role and no permission in the module |
| `ModuleAccess.RevokeIdempotent` | app/Models/Traits/HasModuleAccess.php:175-184 | revoking twice is revoking once, and revoking where no row exists changes nothing |
| `ModuleAccess.RevokeIsolated` | app/Models/Traits/HasModuleAccess.php:175-184 | revocation leaves the access, role and permission answers of every other user and module unchanged |
| `ModuleAccess.ModuleAccessStore.constructor` | database/migrations/2025_09_07_174407_crear_tabla_modulo_usuario_acceso.php:35 | a new store has empty grant and role tables over a registry with unique names, and satisfies the unique-index invariant |
| `ModuleAccess.ModuleAccessStore.GrantModuleAccess` | app/Models/Traits/HasModuleAccess.php:136-150 | the grant table becomes `GrantAccess` of the old one, the returned row is the stored one, the other tables are unchanged, and the invariant is kept |
| `ModuleAccess.ModuleAccessStore.AssignModuleRole` | app/Models/Traits/HasModuleAccess.php:155-170 | the role table becomes `AssignRole` of the old one, the returned row is the stored one, the other tables are unchanged, and the invariant is kept |
| `ModuleAccess.ModuleAccessStore.RevokeModuleAccess` | app/Models/Traits/HasModuleAccess.php:175-184 | the tables become `RevokeAccess` and `DeactivateRole` of the old ones, and afterwards the user has no access and no role in the module at any instant |
| `SeedScenario.SeededRegistryWellFormed` | database/seeders/ModulosSistemaSeeder.php:17-61 | the three seeded records have distinct names, are all active, and the lookup by each name finds its record |
| `SeedScenario.SuperAdminGrants` | database/seeders/ModulosSistemaSeeder.php:79-86 | on any table, the block adds exactly the three super-administrator pairs, each granted by the super-administrator with the block's notes at `now`; rows of other users are unchanged; keying is kept |
| `SeedScenario.SysAdminGrants` | database/seeders/ModulosSistemaSeeder.php:93-96 | on any table, the block adds exactly the two system-administrator pairs, granted by the given grantor with the block's notes; rows of other users are unchanged; keying is kept |
| `SeedScenario.BasicUserGrants` | database/seeders/ModulosSistemaSeeder.php:104 | on any table, the block adds exactly the basic user's dashboard pair with the block's grantor and notes; rows of other users are unchanged; keying is kept |
| `SeedScenario.SeededAccess` | database/seeders/ModulosSistemaSeeder.php:79-105 | replaying the six grants in the order of the provisioning, from an empty table, gives exactly the six-row grant table written out, none expiring |
| `SeedScenario.SuperAdminRoles` | database/seeders/ModulosSistemaSeeder.php:79-86 | on any table, the block adds exactly the three super-administrator pairs, holding admin, viewer and admin, active, with the block's grantor and notes; rows of other users are unchanged; keying is kept |
| `SeedScenario.SysAdminRoles` | database/seeders/ModulosSistemaSeeder.php:94-97 | on any table, the block adds exactly the two system-administrator pairs, editor on user management and viewer on the dashboard; rows of other users are unchanged; keying is kept |
| `SeedScenario.BasicUserRoles` | database/seeders/ModulosSistemaSeeder.php:105 | on any table, the block adds exactly the basic user's dashboard pair, holding viewer; rows of other users are unchanged; keying is kept |
| `SeedScenario.SeededRoles` | database/seeders/ModulosSistemaSeeder.php:79-105 | replaying the six assignments in the order of the provisioning, from an empty table, gives exactly the six-row role table written out, all active, none expiring |
| `SeedScenario.GrantCreates` | app/Models/Traits/HasModuleAccess.php:136-150 | a grant on a pair without a row creates a fresh row that has access and no expiry |
| `SeedScenario.AssignCreates` | app/Models/Traits/HasModuleAccess.php:155-170 | an assignment on a pair without a row creates a fresh active row with no expiry |
| `SeedScenario.SuperAdminBlockGrants` | database/seeders/ModulosSistemaSeeder.php:79-86 | the super-administrator's three grants on empty tables create the three rows written out |
| `SeedScenario.SysAdminBlockGrants` | database/seeders/ModulosSistemaSeeder.php:93-97 | the system administrator's two grants then add their two rows |
| `SeedScenario.SuperAdminBlockRoles` | database/seeders/ModulosSistemaSeeder.php:79-86 | the super-administrator's three assignments on empty tables create the three rows written out |
| `SeedScenario.SysAdminBlockRoles` | database/seeders/ModulosSistemaSeeder.php:93-97 | the system administrator's two assignments then add their two rows |
| `SeedScenario.ProvisionedKeyed` | database/seeders/ModulosSistemaSeeder.php:79-105 | every provisioned grant is stored under its own user and module |
| `SeedScenario.SysAdminPermissions` | database/seeders/ModulosSistemaSeeder.php:93-94 | the system administrator, an editor of user management, may edit and view users but not administer them |
| `SeedScenario.SysAdminOutsideSystemManagement` | database/seeders/ModulosSistemaSeeder.php:91-99 | the system administrator has no grant for system management, so no requirement is met there |
| `SeedScenario.SuperAdminPermissions` | database/seeders/ModulosSistemaSeeder.php:85-86 | the super-administrator may administer system management |
| `SeedScenario.BasicUserPermissions` | database/seeders/ModulosSistemaSeeder.php:104-105 | the basic user holds exactly "viewer" on the dashboard and may not edit it |
| `SeedScenario.ProvisionedNames` | database/seeders/ModulosSistemaSeeder.php:91-105 | the system administrator's grants cover user management and the dashboard but not system management; the basic user's cover the dashboard only |
| `SeedScenario.RegistryNamedTwo` | database/seeders/ModulosSistemaSeeder.php:17-54 | for names covering user management and the dashboard but not system management, the seeded registry keeps those two records in registry order |
| `SeedScenario.RegistryNamedOne` | database/seeders/ModulosSistemaSeeder.php:17-54 | for names covering only the dashboard, the seeded registry keeps only that record |
| `SeedScenario.MenuSorted` | database/seeders/ModulosSistemaSeeder.php:17-54 | sorting by display order puts the dashboard (order 0) before user management (order 1) |
| `SeedScenario.SeededMenus` | database/seeders/ModulosSistemaSeeder.php:79-105 | the system administrator's menu is the dashboard then user management; the basic user's is the dashboard alone |

## Left out

- Console output, the lookup of the seeded users by e-mail, and the `if ($user)` guards of the
  provisioning: the scenario assumes all three users exist, with ids 1, 2 and 3.
- `created_at`/`updated_at`, and the descriptive registry columns (`descripcion`, `icono`,
  `prefijo_ruta`, `tiene_usuarios_internos`, `permisos_por_defecto`): nothing in the core reads them.
  The JSON column `roles_disponibles` is carried as a sequence of strings.
- Soft deletes: a trashed row is treated as absent, and restore is not modelled. This hides one
  error path. `updateOrCreate` in `grantModuleAccess` and `assignModuleRole` does not see a trashed
  row, because of the soft-delete global scope, so it tries an INSERT. That INSERT breaks the unique
  index on `(user_id, nombre_modulo)`, which ignores `deleted_at`, and the source raises an
  exception. `GrantAccess` and `AssignRole` succeed on such a pair instead.
- Foreign keys and cascades: the database engine enforces them, not the repository's code. The
  unique indexes become the map key and the `Valid()` invariant.
- The Eloquent objects that `updateOrCreate` returns. The methods return the stored row value.
- Concurrent upserts racing on the unique index: the model is sequential.
- The clock: `now()` becomes one `now` parameter per call. The source reads it more than once in
  some calls. `canPerformInModule` reads it in `hasAccessToModule` (HasModuleAccess.php:21) and
  again in `getRoleInModule` (:36). `getModulesWithRoles` reads it once more for each listed
  module (:95). The model evaluates every such call at a single instant, so it does not capture an
  expiry that passes between two of those reads.
- String semantics of the database: module names and role names are compared exactly, as under a
  binary collation. In the source, every `where('nombre_modulo', …)`, the `whereIn('nombre', …)`,
  `porRol` and both unique indexes compare under the column's SQL collation. Under a
  case-insensitive collation, "Users" and "users" would be the same key and match the same rows.
  Only `hasRoleInModule`'s `===` is exact in every case. The column widths (`nombre_modulo` 100,
  `rol_en_modulo` 50) are not modelled either: the model accepts names and roles of any length.
- The global permission seeder (`SystemRolesSeeder`) and the HTTP routes: they belong to the
  separate, library-provided permission system, not to the per-module checks.
- The `orderBy('orden_mostrar')` tie order: SQL leaves it unspecified. The model's sort is stable,
  and only sortedness and permutation are stated.
- Soundness of the scope composition: it relies on Laravel's grouping of a scope's `or` conditions,
  which is library behaviour and is taken as given.
- `ModuleAccess.AssignRole`: the role name is not checked against the module's `roles_disponibles`,
  because the source does not check it either.
- `ModuleAccess.ModuleAccessStore.GrantModuleAccess`, `ModuleAccess.ModuleAccessStore.AssignModuleRole`,
  `ModuleAccess.ModuleAccessStore.RevokeModuleAccess`: they require `Valid()`, the database's unique
  indexes, because a state breaking those indexes cannot arise.
- `SeedScenario` states its permission and menu facts about the tables written out
  (`ProvisionedAccess`, `ProvisionedRoles`). The contracts of `SeededAccess` and `SeededRoles` state that
  these equal the replay of the provisioning calls.
