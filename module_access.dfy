/**
 * The per-module authorization layer a user gains from `HasModuleAccess`:
 * the access gate, the role held in a module, the fixed role hierarchy, the
 * list of modules a user may open, and the upserts and revocation that change
 * the two tables.  The user the trait is attached to (`$this->id`) and the
 * current instant (`now()`) are explicit parameters.
 */
module ModuleAccess {
  import opened Common
  import opened Query
  import opened Registry
  import opened AccessGrants
  import opened RoleAssignments

  /** The unique index `(user_id, nombre_modulo)` of both tables. */
  type Key = (UserId, string)
  type AccessTable = map<Key, AccessGrant>
  type RoleTable = map<Key, RoleAssignment>

  /** Every grant is stored under its own `(user_id, nombre_modulo)`. */
  ghost predicate AccessKeyed(t: AccessTable)
  {
    forall k | k in t :: t[k].userId == k.0 && t[k].nombreModulo == k.1
  }

  /** Every role assignment is stored under its own `(user_id, nombre_modulo)`. */
  ghost predicate RolesKeyed(t: RoleTable)
  {
    forall k | k in t :: t[k].userId == k.0 && t[k].nombreModulo == k.1
  }

  /** `rows` holds exactly the user's grants: the relation `modulosAcceso()`, in some order. */
  ghost predicate ListsGrantsOf(rows: seq<AccessGrant>, t: AccessTable, u: UserId)
  {
    forall g :: g in rows <==> g in t.Values && g.userId == u
  }

  /** `rows` holds exactly the user's role rows: the relation `modulosRoles()`, in some order. */
  ghost predicate ListsRolesOf(rows: seq<RoleAssignment>, t: RoleTable, u: UserId)
  {
    forall a :: a in rows <==> a in t.Values && a.userId == u
  }

  // ---------------------------------------------------------------------------
  // The role hierarchy
  // ---------------------------------------------------------------------------

  const KnownRoles: set<string> := {"viewer", "editor", "admin"}

  /** The table `viewer => 1, editor => 2, admin => 3`; other names are not in it. */
  function HierarchyLevel(rol: string): (r: Option<nat>)
    ensures r.Some? <==> rol in KnownRoles
    ensures r.Some? ==> 1 <= r.value <= 3
  {
    if rol == "viewer" then Some(1)
    else if rol == "editor" then Some(2)
    else if rol == "admin" then Some(3)
    else None
  }

  /** The level of a held role; an unknown one counts as 0. */
  function UserLevel(rol: string): (r: nat)
    ensures r == 0 <==> rol !in KnownRoles
    ensures rol in KnownRoles ==> HierarchyLevel(rol) == Some(r)
    ensures r <= 3
  {
    match HierarchyLevel(rol)
    case Some(level) => level
    case None => 0
  }

  /** The level a request demands; an unknown one counts as 999. */
  function RequiredLevel(rol: string): (r: nat)
    ensures r == 999 <==> rol !in KnownRoles
    ensures rol in KnownRoles ==> HierarchyLevel(rol) == Some(r) && r >= 1
  {
    match HierarchyLevel(rol)
    case Some(level) => level
    case None => 999
  }

  /**
   * `roleHasPermission`: the held role is at least as high as the required one.
   * Spelled out role by role, that is the table below; anything outside the
   * three known names fails closed on either side.
   */
  function RoleHasPermission(userRole: string, requiredRole: string): (r: bool)
    ensures r <==>
      || (requiredRole == "viewer" && userRole in KnownRoles)
      || (requiredRole == "editor" && (userRole == "editor" || userRole == "admin"))
      || (requiredRole == "admin" && userRole == "admin")
  {
    UserLevel(userRole) >= RequiredLevel(requiredRole)
  }

  /** Raising the held role or lowering the requirement never withdraws a permission. */
  lemma HierarchyMonotone(held: string, stronger: string, required: string, weaker: string)
    requires UserLevel(stronger) >= UserLevel(held)
    requires RequiredLevel(required) >= RequiredLevel(weaker)
    requires RoleHasPermission(held, required)
    ensures RoleHasPermission(stronger, weaker)
  {
  }

  /** An unknown required role is never satisfiable; an unknown held role never satisfies. */
  lemma HierarchyFailsClosed(held: string, required: string)
    ensures required !in KnownRoles ==> !RoleHasPermission(held, required)
    ensures held !in KnownRoles ==> !RoleHasPermission(held, required)
    ensures RoleHasPermission(held, held) <==> held in KnownRoles
  {
  }

  // ---------------------------------------------------------------------------
  // Queries
  // ---------------------------------------------------------------------------

  /** `hasAccessToModule`: the user's grant for the module exists and is in force at `now`. */
  function HasAccessToModule(t: AccessTable, u: UserId, nombreModulo: string, now: Time): (r: bool)
    ensures r ==> (u, nombreModulo) in t && t[(u, nombreModulo)].tieneAcceso
    ensures (u, nombreModulo) in t && t[(u, nombreModulo)].accesoExpiraEn == Some(now) ==> !r
  {
    (u, nombreModulo) in t && IsActiveGrant(t[(u, nombreModulo)], now)
  }

  /**
   * The keyed lookup answers what the query built from the scopes answers:
   * among the user's grants, one for the module survives `activos` and
   * `conAcceso`.
   */
  lemma {:induction false} AccessAgreesWithScopes(
    t: AccessTable, u: UserId, nombreModulo: string, now: Time, rows: seq<AccessGrant>)
    requires AccessKeyed(t)
    requires ListsGrantsOf(rows, t, u)
    ensures HasAccessToModule(t, u, nombreModulo, now) <==>
      exists g | g in ConAcceso(AccessGrants.Activos(rows, now)) :: g.nombreModulo == nombreModulo
  {
    var k := (u, nombreModulo);
    ScopesCompose(rows, now);
    if HasAccessToModule(t, u, nombreModulo, now) {
      assert t[k] in t.Values;
      assert t[k] in ConAcceso(AccessGrants.Activos(rows, now));
    } else {
      forall g | g in ConAcceso(AccessGrants.Activos(rows, now)) ensures g.nombreModulo != nombreModulo {
        var k' :| k' in t && t[k'] == g;
        assert k' == (g.userId, g.nombreModulo);
      }
    }
  }

  /** `getRoleInModule`: the role of the user's assignment if it is in force at `now`. */
  function GetRoleInModule(t: RoleTable, u: UserId, nombreModulo: string, now: Time): (r: Option<string>)
    ensures r.Some? ==> (u, nombreModulo) in t && r.value == t[(u, nombreModulo)].rolEnModulo
    ensures r.Some? <==> (u, nombreModulo) in t && t[(u, nombreModulo)].estaActivo &&
                         NotExpired(t[(u, nombreModulo)].rolExpiraEn, now)
  {
    var k := (u, nombreModulo);
    if k in t && IsActiveRole(t[k], now) then Some(t[k].rolEnModulo) else None
  }

  /**
   * The keyed lookup answers what `modulosRoles()->porModulo(m)->activos()->first()`
   * answers: nothing when that query is empty, otherwise the role of its first row.
   */
  lemma {:induction false} RoleAgreesWithScopes(
    t: RoleTable, u: UserId, nombreModulo: string, now: Time, rows: seq<RoleAssignment>)
    requires RolesKeyed(t)
    requires ListsRolesOf(rows, t, u)
    ensures var q := RoleAssignments.Activos(PorModulo(rows, nombreModulo), now);
      GetRoleInModule(t, u, nombreModulo, now) == if q == [] then None else Some(q[0].rolEnModulo)
  {
    var k := (u, nombreModulo);
    var q := RoleAssignments.Activos(PorModulo(rows, nombreModulo), now);
    if q != [] {
      var a := q[0];
      assert a in q;
      var k' :| k' in t && t[k'] == a;
      assert k' == k;
    }
  }

  /** `hasRoleInModule`: the active role is exactly `rol`; the hierarchy plays no part. */
  function HasRoleInModule(t: RoleTable, u: UserId, nombreModulo: string, rol: string, now: Time): (r: bool)
    ensures r <==> (u, nombreModulo) in t && t[(u, nombreModulo)].rolEnModulo == rol &&
                   IsActiveRole(t[(u, nombreModulo)], now)
  {
    GetRoleInModule(t, u, nombreModulo, now) == Some(rol)
  }

  /** Holding one role does not make any other role name "held", however they rank. */
  lemma HasRoleIsExact(t: RoleTable, u: UserId, nombreModulo: string, now: Time, held: string, other: string)
    requires HasRoleInModule(t, u, nombreModulo, held, now)
    requires other != held
    ensures !HasRoleInModule(t, u, nombreModulo, other, now)
  {
  }

  /**
   * PHP treats the strings "" and "0" as false in `if (!$userRole)`.  Neither
   * is a known role, so both already sit at level 0, below every requirement.
   */
  predicate PhpFalsy(s: string)
    ensures PhpFalsy(s) ==> s !in KnownRoles && UserLevel(s) == 0
    ensures PhpFalsy(s) ==> forall required :: !RoleHasPermission(s, required)
  {
    s == "" || s == "0"
  }

  /**
   * `canPerformInModule`: the access gate first, then an active role, then the
   * hierarchy.  The explicit rejection of "" and "0" is subsumed by their level 0.
   */
  function CanPerformInModule(
    at: AccessTable, rt: RoleTable, u: UserId, nombreModulo: string, requiredRole: string, now: Time): (r: bool)
    ensures r ==> HasAccessToModule(at, u, nombreModulo, now)
    ensures r <==>
      && HasAccessToModule(at, u, nombreModulo, now)
      && GetRoleInModule(rt, u, nombreModulo, now).Some?
      && UserLevel(GetRoleInModule(rt, u, nombreModulo, now).value) >= RequiredLevel(requiredRole)
  {
    if !HasAccessToModule(at, u, nombreModulo, now) then false
    else
      match GetRoleInModule(rt, u, nombreModulo, now)
      case None => false
      case Some(userRole) => if PhpFalsy(userRole) then false else RoleHasPermission(userRole, requiredRole)
  }

  /** Without access in force, no role, however high, permits anything. */
  lemma AccessGateDominates(at: AccessTable, rt: RoleTable, u: UserId, nombreModulo: string, now: Time, requiredRole: string)
    requires !HasAccessToModule(at, u, nombreModulo, now)
    ensures !CanPerformInModule(at, rt, u, nombreModulo, requiredRole, now)
  {
  }

  /** Whoever may perform a demanding action may perform every less demanding one. */
  lemma CanPerformMonotone(
    at: AccessTable, rt: RoleTable, u: UserId, nombreModulo: string, now: Time, required: string, weaker: string)
    requires RequiredLevel(required) >= RequiredLevel(weaker)
    requires CanPerformInModule(at, rt, u, nombreModulo, required, now)
    ensures CanPerformInModule(at, rt, u, nombreModulo, weaker, now)
  {
  }

  /** A request for a role outside the hierarchy is refused to everyone. */
  lemma UnknownRequirementRefused(
    at: AccessTable, rt: RoleTable, u: UserId, nombreModulo: string, now: Time, required: string)
    requires required !in KnownRoles
    ensures !CanPerformInModule(at, rt, u, nombreModulo, required, now)
  {
  }

  /** The names plucked from the user's grants in force (`pluck('nombre_modulo')`). */
  function AccessibleNames(t: AccessTable, u: UserId, now: Time): (r: set<string>)
    ensures AccessKeyed(t) ==> forall n :: n in r ==> (u, n) in t && IsActiveGrant(t[(u, n)], now)
    ensures forall k | k in t && k.0 == u && t[k].userId == u && IsActiveGrant(t[k], now) :: t[k].nombreModulo in r
  {
    set g | g in t.Values && g.userId == u && IsActiveGrant(g, now) :: g.nombreModulo
  }

  /** With grants stored under their own key, the plucked names are those `hasAccessToModule` admits. */
  lemma AccessibleNamesExact(t: AccessTable, u: UserId, now: Time, nombreModulo: string)
    requires AccessKeyed(t)
    ensures nombreModulo in AccessibleNames(t, u, now) <==> HasAccessToModule(t, u, nombreModulo, now)
  {
    var k := (u, nombreModulo);
    if k in t && IsActiveGrant(t[k], now) {
      assert t[k] in t.Values;
    }
    if nombreModulo in AccessibleNames(t, u, now) {
      var g :| g in t.Values && g.userId == u && IsActiveGrant(g, now) && g.nombreModulo == nombreModulo;
      var k' :| k' in t && t[k'] == g;
      assert k' == k;
    }
  }

  function NameIn(names: set<string>): Modulo -> bool
  {
    (mod: Modulo) => mod.nombre in names
  }

  /**
   * `getAccessibleModules`: the registry records whose name the user holds a
   * grant in force for and which are themselves active, by display order.
   * Each record appears as often as it does in the registry.
   */
  function GetAccessibleModules(registry: seq<Modulo>, t: AccessTable, u: UserId, now: Time): (r: seq<Modulo>)
    ensures SortedByOrden(r)
    ensures forall mod | mod in r :: mod in registry && mod.estaActivo && mod.nombre in AccessibleNames(t, u, now)
    ensures forall mod | mod in registry :: (multiset(r)[mod] ==
      if mod.estaActivo && mod.nombre in AccessibleNames(t, u, now) then multiset(registry)[mod] else 0)
  {
    var named := Filter(registry, NameIn(AccessibleNames(t, u, now)));
    var active := Registry.Activos(named);
    assert forall mod | mod in registry :: (multiset(active)[mod] ==
      if mod.estaActivo && mod.nombre in AccessibleNames(t, u, now) then multiset(registry)[mod] else 0) by {
      forall mod | mod in registry
        ensures multiset(active)[mod] ==
          if mod.estaActivo && mod.nombre in AccessibleNames(t, u, now) then multiset(registry)[mod] else 0
      {
        if mod !in named {
          assert mod !in active;
        }
      }
    }
    var r := OrdenadosPorPrioridad(active);
    assert forall mod | mod in r :: mod in active by {
      forall mod | mod in r ensures mod in active {
        assert mod in multiset(r);
      }
    }
    r
  }

  /**
   * With grants stored under their own key, a record is listed exactly when it
   * is a registered, active module that `hasAccessToModule` admits.  An
   * inactive module stays out even while its grant is in force.
   */
  lemma AccessibleModulesExact(registry: seq<Modulo>, t: AccessTable, u: UserId, now: Time, mod: Modulo)
    requires AccessKeyed(t)
    ensures mod in GetAccessibleModules(registry, t, u, now) <==>
      mod in registry && mod.estaActivo && HasAccessToModule(t, u, mod.nombre, now)
  {
    var r := GetAccessibleModules(registry, t, u, now);
    AccessibleNamesExact(t, u, now, mod.nombre);
    if mod in registry && mod.estaActivo && mod.nombre in AccessibleNames(t, u, now) {
      assert mod in multiset(registry);
      assert mod in multiset(r);
    }
  }

  /** Each module of `mods`, in order, paired with the user's role in it (`user_role`). */
  function WithRoles(mods: seq<Modulo>, rt: RoleTable, u: UserId, now: Time): (r: seq<(Modulo, Option<string>)>)
    ensures |r| == |mods|
    ensures forall i | 0 <= i < |r| :: r[i].0 == mods[i] && r[i].1 == GetRoleInModule(rt, u, mods[i].nombre, now)
  {
    if mods == [] then []
    else [(mods[0], GetRoleInModule(rt, u, mods[0].nombre, now))] + WithRoles(mods[1..], rt, u, now)
  }

  /** `getModulesWithRoles`: each accessible module, in order, with the user's role in it. */
  function GetModulesWithRoles(registry: seq<Modulo>, at: AccessTable, rt: RoleTable, u: UserId, now: Time)
    : (r: seq<(Modulo, Option<string>)>)
    ensures var mods := GetAccessibleModules(registry, at, u, now);
      && |r| == |mods|
      && forall i | 0 <= i < |r| :: r[i].0 == mods[i] && r[i].1 == GetRoleInModule(rt, u, mods[i].nombre, now)
  {
    WithRoles(GetAccessibleModules(registry, at, u, now), rt, u, now)
  }

  /**
   * For every listed module the access gate is already open, so whether the
   * user may act there is decided by the role shown beside it alone.
   */
  lemma ModulesWithRolesDecide(
    registry: seq<Modulo>, at: AccessTable, rt: RoleTable, u: UserId, now: Time, i: nat, requiredRole: string)
    requires AccessKeyed(at)
    requires i < |GetModulesWithRoles(registry, at, rt, u, now)|
    ensures var entry := GetModulesWithRoles(registry, at, rt, u, now)[i];
      && entry.0 in registry && entry.0.estaActivo
      && (CanPerformInModule(at, rt, u, entry.0.nombre, requiredRole, now) <==>
          entry.1.Some? && UserLevel(entry.1.value) >= RequiredLevel(requiredRole))
  {
    var entry := GetModulesWithRoles(registry, at, rt, u, now)[i];
    var mods := GetAccessibleModules(registry, at, u, now);
    assert entry.0 == mods[i] && entry.0 in mods;
    AccessibleModulesExact(registry, at, u, now, entry.0);
  }

  // ---------------------------------------------------------------------------
  // The changes the trait makes, as functions of the tables
  // ---------------------------------------------------------------------------

  /** The expiry an upsert keeps: the existing row's, or none for a new row. */
  function KeptAccessExpiry(t: AccessTable, u: UserId, nombreModulo: string): Option<Time>
  {
    if (u, nombreModulo) in t then t[(u, nombreModulo)].accesoExpiraEn else None
  }

  /**
   * `grantModuleAccess` (`updateOrCreate` on the pair): the one row for the
   * pair now has access, the grant time `now` and the caller's grantor and
   * notes; its expiry stays as it was; every other row is untouched.
   */
  function GrantAccess(
    t: AccessTable, u: UserId, nombreModulo: string, asignadoPor: UserId, notas: Option<string>, now: Time)
    : (t': AccessTable)
    ensures t'.Keys == t.Keys + {(u, nombreModulo)}
    ensures forall k | k in t && k != (u, nombreModulo) :: t'[k] == t[k]
    ensures var g := t'[(u, nombreModulo)];
      g.tieneAcceso && g.accesoOtorgadoEn == now && g.asignadoPor == asignadoPor && g.notas == notas &&
      g.accesoExpiraEn == KeptAccessExpiry(t, u, nombreModulo)
    ensures AccessKeyed(t) ==> AccessKeyed(t')
  {
    var k := (u, nombreModulo);
    var row :=
      if k in t then t[k].(tieneAcceso := true, accesoOtorgadoEn := now, asignadoPor := asignadoPor, notas := notas)
      else AccessGrant(u, nombreModulo, true, now, None, asignadoPor, notas);
    t[k := row]
  }

  /**
   * After a grant, access holds exactly while the kept expiry has not passed:
   * a new grant never expires, and a re-grant does not revive an expired one.
   */
  lemma GrantedAccess(
    t: AccessTable, u: UserId, nombreModulo: string, asignadoPor: UserId, notas: Option<string>, now: Time, later: Time)
    ensures HasAccessToModule(GrantAccess(t, u, nombreModulo, asignadoPor, notas, now), u, nombreModulo, later) <==>
      NotExpired(KeptAccessExpiry(t, u, nombreModulo), later)
    ensures (u, nombreModulo) !in t ==>
      HasAccessToModule(GrantAccess(t, u, nombreModulo, asignadoPor, notas, now), u, nombreModulo, later)
  {
  }

  /** Granting twice leaves the row of the second call; the first call's grant time, grantor and notes are lost. */
  lemma GrantLatestWins(
    t: AccessTable, u: UserId, nombreModulo: string,
    by1: UserId, notas1: Option<string>, now1: Time, by2: UserId, notas2: Option<string>, now2: Time)
    ensures GrantAccess(GrantAccess(t, u, nombreModulo, by1, notas1, now1), u, nombreModulo, by2, notas2, now2) ==
      GrantAccess(t, u, nombreModulo, by2, notas2, now2)
  {
  }

  /** A grant leaves exactly one row for the pair, and changes no other pair's access. */
  lemma GrantLeavesOneRow(
    t: AccessTable, u: UserId, nombreModulo: string, asignadoPor: UserId, notas: Option<string>, now: Time,
    u': UserId, other: string, later: Time)
    requires AccessKeyed(t)
    ensures var t' := GrantAccess(t, u, nombreModulo, asignadoPor, notas, now);
      forall g | g in t'.Values && g.userId == u && g.nombreModulo == nombreModulo :: g == t'[(u, nombreModulo)]
    ensures (u', other) != (u, nombreModulo) ==>
      HasAccessToModule(GrantAccess(t, u, nombreModulo, asignadoPor, notas, now), u', other, later) ==
      HasAccessToModule(t, u', other, later)
  {
    var t' := GrantAccess(t, u, nombreModulo, asignadoPor, notas, now);
    forall g | g in t'.Values && g.userId == u && g.nombreModulo == nombreModulo
      ensures g == t'[(u, nombreModulo)]
    {
      var k :| k in t' && t'[k] == g;
      assert k == (g.userId, g.nombreModulo);
    }
  }

  /** The expiry a role upsert keeps: the existing row's, or none for a new row. */
  function KeptRoleExpiry(t: RoleTable, u: UserId, nombreModulo: string): Option<Time>
  {
    if (u, nombreModulo) in t then t[(u, nombreModulo)].rolExpiraEn else None
  }

  /**
   * `assignModuleRole` (`updateOrCreate` on the pair): the one row for the
   * pair now holds `rol`, is active, was assigned at `now` by the caller with
   * the caller's notes; its expiry stays as it was; every other row is
   * untouched.  `rol` is not checked against the module's available roles.
   */
  function AssignRole(
    t: RoleTable, u: UserId, nombreModulo: string, rol: string, asignadoPor: UserId, notas: Option<string>, now: Time)
    : (t': RoleTable)
    ensures t'.Keys == t.Keys + {(u, nombreModulo)}
    ensures forall k | k in t && k != (u, nombreModulo) :: t'[k] == t[k]
    ensures var a := t'[(u, nombreModulo)];
      a.rolEnModulo == rol && a.estaActivo && a.rolAsignadoEn == now && a.asignadoPor == asignadoPor &&
      a.notasAsignacion == notas && a.rolExpiraEn == KeptRoleExpiry(t, u, nombreModulo)
    ensures RolesKeyed(t) ==> RolesKeyed(t')
  {
    var k := (u, nombreModulo);
    var row :=
      if k in t then
        t[k].(rolEnModulo := rol, estaActivo := true, rolAsignadoEn := now,
              asignadoPor := asignadoPor, notasAsignacion := notas)
      else RoleAssignment(u, nombreModulo, rol, true, now, None, asignadoPor, notas);
    t[k := row]
  }

  /** After an assignment the user holds `rol` exactly while the kept expiry has not passed. */
  lemma AssignedRole(
    t: RoleTable, u: UserId, nombreModulo: string, rol: string, asignadoPor: UserId, notas: Option<string>,
    now: Time, later: Time)
    ensures GetRoleInModule(AssignRole(t, u, nombreModulo, rol, asignadoPor, notas, now), u, nombreModulo, later) ==
      if NotExpired(KeptRoleExpiry(t, u, nombreModulo), later) then Some(rol) else None
  {
  }

  /** Assigning twice leaves the row of the second call. */
  lemma AssignLatestWins(
    t: RoleTable, u: UserId, nombreModulo: string, rol1: string, by1: UserId, notas1: Option<string>, now1: Time,
    rol2: string, by2: UserId, notas2: Option<string>, now2: Time)
    ensures AssignRole(AssignRole(t, u, nombreModulo, rol1, by1, notas1, now1), u, nombreModulo, rol2, by2, notas2, now2) ==
      AssignRole(t, u, nombreModulo, rol2, by2, notas2, now2)
  {
  }

  /** An assignment leaves exactly one row for the pair, and changes no other pair's role. */
  lemma AssignLeavesOneRow(
    t: RoleTable, u: UserId, nombreModulo: string, rol: string, asignadoPor: UserId, notas: Option<string>, now: Time,
    u': UserId, other: string, later: Time)
    requires RolesKeyed(t)
    ensures var t' := AssignRole(t, u, nombreModulo, rol, asignadoPor, notas, now);
      forall a | a in t'.Values && a.userId == u && a.nombreModulo == nombreModulo :: a == t'[(u, nombreModulo)]
    ensures (u', other) != (u, nombreModulo) ==>
      GetRoleInModule(AssignRole(t, u, nombreModulo, rol, asignadoPor, notas, now), u', other, later) ==
      GetRoleInModule(t, u', other, later)
  {
    var t' := AssignRole(t, u, nombreModulo, rol, asignadoPor, notas, now);
    forall a | a in t'.Values && a.userId == u && a.nombreModulo == nombreModulo
      ensures a == t'[(u, nombreModulo)]
    {
      var k :| k in t' && t'[k] == a;
      assert k == (a.userId, a.nombreModulo);
    }
  }

  /** The first update of `revokeModuleAccess`: clear the access flag of the pair's row, if any. */
  function RevokeAccess(t: AccessTable, u: UserId, nombreModulo: string): (t': AccessTable)
    ensures t'.Keys == t.Keys
    ensures forall k | k in t && k != (u, nombreModulo) :: t'[k] == t[k]
    ensures (u, nombreModulo) in t ==> t'[(u, nombreModulo)] == t[(u, nombreModulo)].(tieneAcceso := false)
    ensures AccessKeyed(t) ==> AccessKeyed(t')
  {
    var k := (u, nombreModulo);
    if k in t then t[k := t[k].(tieneAcceso := false)] else t
  }

  /** The second update of `revokeModuleAccess`: clear the active flag of the pair's role row, if any. */
  function DeactivateRole(t: RoleTable, u: UserId, nombreModulo: string): (t': RoleTable)
    ensures t'.Keys == t.Keys
    ensures forall k | k in t && k != (u, nombreModulo) :: t'[k] == t[k]
    ensures (u, nombreModulo) in t ==> t'[(u, nombreModulo)] == t[(u, nombreModulo)].(estaActivo := false)
    ensures RolesKeyed(t) ==> RolesKeyed(t')
  {
    var k := (u, nombreModulo);
    if k in t then t[k := t[k].(estaActivo := false)] else t
  }

  /** After a revocation the user has no access, no role and no permission in the module, at any time. */
  lemma RevokeDenies(at: AccessTable, rt: RoleTable, u: UserId, nombreModulo: string, later: Time, requiredRole: string)
    ensures !HasAccessToModule(RevokeAccess(at, u, nombreModulo), u, nombreModulo, later)
    ensures GetRoleInModule(DeactivateRole(rt, u, nombreModulo), u, nombreModulo, later).None?
    ensures !CanPerformInModule(
      RevokeAccess(at, u, nombreModulo), DeactivateRole(rt, u, nombreModulo), u, nombreModulo, requiredRole, later)
  {
  }

  /** Revoking twice is revoking once; revoking where no rows exist changes nothing. */
  lemma RevokeIdempotent(at: AccessTable, rt: RoleTable, u: UserId, nombreModulo: string)
    ensures RevokeAccess(RevokeAccess(at, u, nombreModulo), u, nombreModulo) == RevokeAccess(at, u, nombreModulo)
    ensures DeactivateRole(DeactivateRole(rt, u, nombreModulo), u, nombreModulo) == DeactivateRole(rt, u, nombreModulo)
    ensures (u, nombreModulo) !in at ==> RevokeAccess(at, u, nombreModulo) == at
    ensures (u, nombreModulo) !in rt ==> DeactivateRole(rt, u, nombreModulo) == rt
  {
  }

  /** Revocation leaves every other user's and every other module's answers as they were. */
  lemma RevokeIsolated(
    at: AccessTable, rt: RoleTable, u: UserId, nombreModulo: string,
    u': UserId, other: string, later: Time, requiredRole: string)
    requires (u', other) != (u, nombreModulo)
    ensures HasAccessToModule(RevokeAccess(at, u, nombreModulo), u', other, later) == HasAccessToModule(at, u', other, later)
    ensures GetRoleInModule(DeactivateRole(rt, u, nombreModulo), u', other, later) == GetRoleInModule(rt, u', other, later)
    ensures CanPerformInModule(RevokeAccess(at, u, nombreModulo), DeactivateRole(rt, u, nombreModulo), u', other, requiredRole, later) ==
      CanPerformInModule(at, rt, u', other, requiredRole, later)
  {
  }

  // ---------------------------------------------------------------------------
  // The store the trait reads and writes
  // ---------------------------------------------------------------------------

  /**
   * The three tables: grants and role assignments keyed by `(user, module)`,
   * and the module registry, which the trait only reads.
   */
  class ModuleAccessStore {
    var accesos: AccessTable
    var roles: RoleTable
    var modulos: seq<Modulo>

    /** The unique indexes of the three tables. */
    ghost predicate Valid()
      reads this
    {
      AccessKeyed(accesos) && RolesKeyed(roles) && UniqueNames(modulos)
    }

    constructor (registry: seq<Modulo>)
      requires UniqueNames(registry)
      ensures Valid()
      ensures accesos == map[] && roles == map[] && modulos == registry
    {
      accesos := map[];
      roles := map[];
      modulos := registry;
    }

    /** `grantModuleAccess`: find or start the pair's row, fill it, save it, return it. */
    method GrantModuleAccess(u: UserId, nombreModulo: string, asignadoPor: UserId, notas: Option<string>, now: Time)
      returns (row: AccessGrant)
      requires Valid()
      modifies this
      ensures Valid()
      ensures accesos == GrantAccess(old(accesos), u, nombreModulo, asignadoPor, notas, now)
      ensures (u, nombreModulo) in accesos && row == accesos[(u, nombreModulo)]
      ensures roles == old(roles) && modulos == old(modulos)
    {
      var k := (u, nombreModulo);
      if k in accesos {
        row := accesos[k];
      } else {
        row := AccessGrant(u, nombreModulo, true, now, None, asignadoPor, None);
      }
      row := row.(tieneAcceso := true, accesoOtorgadoEn := now, asignadoPor := asignadoPor, notas := notas);
      accesos := accesos[k := row];
    }

    /** `assignModuleRole`: find or start the pair's row, fill it, save it, return it. */
    method AssignModuleRole(
      u: UserId, nombreModulo: string, rol: string, asignadoPor: UserId, notas: Option<string>, now: Time)
      returns (row: RoleAssignment)
      requires Valid()
      modifies this
      ensures Valid()
      ensures roles == AssignRole(old(roles), u, nombreModulo, rol, asignadoPor, notas, now)
      ensures (u, nombreModulo) in roles && row == roles[(u, nombreModulo)]
      ensures accesos == old(accesos) && modulos == old(modulos)
    {
      var k := (u, nombreModulo);
      if k in roles {
        row := roles[k];
      } else {
        row := RoleAssignment(u, nombreModulo, rol, true, now, None, asignadoPor, None);
      }
      row := row.(rolEnModulo := rol, estaActivo := true, rolAsignadoEn := now,
                  asignadoPor := asignadoPor, notasAsignacion := notas);
      roles := roles[k := row];
    }

    /** `revokeModuleAccess`: clear the access flag, then the role flag, of the pair's rows. */
    method RevokeModuleAccess(u: UserId, nombreModulo: string)
      requires Valid()
      modifies this
      ensures Valid()
      ensures accesos == RevokeAccess(old(accesos), u, nombreModulo)
      ensures roles == DeactivateRole(old(roles), u, nombreModulo)
      ensures modulos == old(modulos)
      ensures forall later: Time :: !HasAccessToModule(accesos, u, nombreModulo, later)
      ensures forall later: Time :: GetRoleInModule(roles, u, nombreModulo, later).None?
    {
      var k := (u, nombreModulo);
      if k in accesos {
        accesos := accesos[k := accesos[k].(tieneAcceso := false)];
      }
      if k in roles {
        roles := roles[k := roles[k].(estaActivo := false)];
      }
    }
  }
}
