/**
 * The initial provisioning of the system, replayed on the model: the three
 * base modules and the grants and roles given to the super-administrator,
 * the system administrator and the basic user.  The users are looked up by
 * e-mail in the original; here they are the ids 1, 2 and 3.
 */
module SeedScenario {
  import opened Common
  import opened Query
  import opened Registry
  import opened AccessGrants
  import opened RoleAssignments
  import opened ModuleAccess

  const SuperAdmin: UserId := 1
  const SysAdmin: UserId := 2
  const BasicUser: UserId := 3

  const UsersModule := Modulo("Users", "Gestión de Usuarios", true, ["viewer", "editor", "admin"], 1)
  const DashboardModule := Modulo("Dashboard", "Panel Principal", true, ["viewer"], 0)
  const SystemModule := Modulo("SystemManagement", "Gestión del Sistema", true, ["admin"], 99)

  const SeededRegistry: seq<Modulo> := [UsersModule, DashboardModule, SystemModule]

  /**
   * The seeded registry: each record is created by `updateOrCreate` keyed on
   * its name, the names are distinct, every record is active, and a lookup
   * by name finds the record of that name.
   */
  lemma SeededRegistryWellFormed()
    ensures UniqueNames(SeededRegistry)
    ensures forall i | 0 <= i < |SeededRegistry| :: EstaActivo(SeededRegistry[i])
    ensures FindByName(SeededRegistry, "Users") == Some(UsersModule)
    ensures FindByName(SeededRegistry, "Dashboard") == Some(DashboardModule)
    ensures FindByName(SeededRegistry, "SystemManagement") == Some(SystemModule)
  {
    assert SeededRegistry[0].nombre == "Users";
    assert SeededRegistry[1].nombre == "Dashboard";
    assert SeededRegistry[2].nombre == "SystemManagement";
    FindByNameUnique(SeededRegistry, UsersModule);
    FindByNameUnique(SeededRegistry, DashboardModule);
    FindByNameUnique(SeededRegistry, SystemModule);
  }

  /** The pair's grant row has access, was granted at `now` by `grantor` with these notes. */
  predicate GrantedBy(t: AccessTable, u: UserId, nombreModulo: string, grantor: UserId, notas: Option<string>, now: Time)
  {
    && (u, nombreModulo) in t
    && var g := t[(u, nombreModulo)];
       g.tieneAcceso && g.accesoOtorgadoEn == now && g.asignadoPor == grantor && g.notas == notas
  }

  /** The pair's role row is active and holds `rol`, assigned at `now` by `grantor` with these notes. */
  predicate AssignedBy(t: RoleTable, u: UserId, nombreModulo: string, rol: string, grantor: UserId, notas: Option<string>, now: Time)
  {
    && (u, nombreModulo) in t
    && var a := t[(u, nombreModulo)];
       a.rolEnModulo == rol && a.estaActivo && a.rolAsignadoEn == now && a.asignadoPor == grantor && a.notasAsignacion == notas
  }

  /** A grant on one pair keeps another pair's grant as it was. */
  lemma GrantKeepsGranted(
    t: AccessTable, u: UserId, nombreModulo: string, grantor: UserId, notas: Option<string>, now: Time,
    u2: UserId, nombreModulo2: string, grantor2: UserId, notas2: Option<string>, now2: Time)
    requires (u2, nombreModulo2) != (u, nombreModulo)
    requires GrantedBy(t, u2, nombreModulo2, grantor2, notas2, now2)
    ensures GrantedBy(GrantAccess(t, u, nombreModulo, grantor, notas, now), u2, nombreModulo2, grantor2, notas2, now2)
  {
  }

  /** An assignment on one pair keeps another pair's role as it was. */
  lemma AssignKeepsAssigned(
    t: RoleTable, u: UserId, nombreModulo: string, rol: string, grantor: UserId, notas: Option<string>, now: Time,
    u2: UserId, nombreModulo2: string, rol2: string, grantor2: UserId, notas2: Option<string>, now2: Time)
    requires (u2, nombreModulo2) != (u, nombreModulo)
    requires AssignedBy(t, u2, nombreModulo2, rol2, grantor2, notas2, now2)
    ensures AssignedBy(AssignRole(t, u, nombreModulo, rol, grantor, notas, now), u2, nombreModulo2, rol2, grantor2, notas2, now2)
  {
  }

  /** The super-administrator's block: access to each of the three modules, granted by themself. */
  function SuperAdminGrants(t: AccessTable, now: Time): (t': AccessTable)
    ensures t'.Keys == t.Keys + {(SuperAdmin, "Users"), (SuperAdmin, "Dashboard"), (SuperAdmin, "SystemManagement")}
    ensures forall k | k in t && k.0 != SuperAdmin :: t'[k] == t[k]
    ensures GrantedBy(t', SuperAdmin, "Users", SuperAdmin, Some("Acceso automático SuperAdmin"), now)
    ensures GrantedBy(t', SuperAdmin, "Dashboard", SuperAdmin, Some("Acceso automático SuperAdmin"), now)
    ensures GrantedBy(t', SuperAdmin, "SystemManagement", SuperAdmin, Some("Acceso automático SuperAdmin"), now)
    ensures AccessKeyed(t) ==> AccessKeyed(t')
  {
    var notas := Some("Acceso automático SuperAdmin");
    assert "Users" != "Dashboard" && "Users" != "SystemManagement" && "Dashboard" != "SystemManagement";
    var t1 := GrantAccess(t, SuperAdmin, "Users", SuperAdmin, notas, now);
    var t2 := GrantAccess(t1, SuperAdmin, "Dashboard", SuperAdmin, notas, now);
    GrantKeepsGranted(t1, SuperAdmin, "Dashboard", SuperAdmin, notas, now, SuperAdmin, "Users", SuperAdmin, notas, now);
    var t3 := GrantAccess(t2, SuperAdmin, "SystemManagement", SuperAdmin, notas, now);
    GrantKeepsGranted(t2, SuperAdmin, "SystemManagement", SuperAdmin, notas, now, SuperAdmin, "Users", SuperAdmin, notas, now);
    GrantKeepsGranted(t2, SuperAdmin, "SystemManagement", SuperAdmin, notas, now, SuperAdmin, "Dashboard", SuperAdmin, notas, now);
    t3
  }

  /** The system administrator's block: access to user management and the dashboard. */
  function SysAdminGrants(t: AccessTable, grantor: UserId, now: Time): (t': AccessTable)
    ensures t'.Keys == t.Keys + {(SysAdmin, "Users"), (SysAdmin, "Dashboard")}
    ensures forall k | k in t && k.0 != SysAdmin :: t'[k] == t[k]
    ensures GrantedBy(t', SysAdmin, "Users", grantor, Some("Acceso SysAdmin"), now)
    ensures GrantedBy(t', SysAdmin, "Dashboard", grantor, Some("Acceso SysAdmin"), now)
    ensures AccessKeyed(t) ==> AccessKeyed(t')
  {
    assert "Users" != "Dashboard";
    var t := GrantAccess(t, SysAdmin, "Users", grantor, Some("Acceso SysAdmin"), now);
    GrantAccess(t, SysAdmin, "Dashboard", grantor, Some("Acceso SysAdmin"), now)
  }

  /** The basic user's block: access to the dashboard only. */
  function BasicUserGrants(t: AccessTable, grantor: UserId, now: Time): (t': AccessTable)
    ensures t'.Keys == t.Keys + {(BasicUser, "Dashboard")}
    ensures forall k | k in t && k.0 != BasicUser :: t'[k] == t[k]
    ensures GrantedBy(t', BasicUser, "Dashboard", grantor, Some("Acceso BasicUser"), now)
    ensures AccessKeyed(t) ==> AccessKeyed(t')
  {
    GrantAccess(t, BasicUser, "Dashboard", grantor, Some("Acceso BasicUser"), now)
  }

  /**
   * The grants, in the order the provisioning makes them, at instant `now`,
   * all three users present.  Every call touches a new pair, so each creates
   * its row, and the replay is the six-row table written out below.
   */
  function SeededAccess(now: Time): (t: AccessTable)
    ensures t == ProvisionedAccess(now)
  {
    SuperAdminBlockGrants(now);
    SysAdminBlockGrants(now);
    FreshPairs(now);
    GrantCreates(AccessAfterSysAdmin(now), BasicUser, "Dashboard", SuperAdmin, Some("Acceso BasicUser"), now);
    BasicUserGrants(SysAdminGrants(SuperAdminGrants(map[], now), SuperAdmin, now), SuperAdmin, now)
  }

  /** The super-administrator's block of role assignments. */
  function SuperAdminRoles(t: RoleTable, now: Time): (t': RoleTable)
    ensures t'.Keys == t.Keys + {(SuperAdmin, "Users"), (SuperAdmin, "Dashboard"), (SuperAdmin, "SystemManagement")}
    ensures forall k | k in t && k.0 != SuperAdmin :: t'[k] == t[k]
    ensures AssignedBy(t', SuperAdmin, "Users", "admin", SuperAdmin, Some("Rol automático SuperAdmin"), now)
    ensures AssignedBy(t', SuperAdmin, "Dashboard", "viewer", SuperAdmin, Some("Rol automático SuperAdmin"), now)
    ensures AssignedBy(t', SuperAdmin, "SystemManagement", "admin", SuperAdmin, Some("Rol automático SuperAdmin"), now)
    ensures RolesKeyed(t) ==> RolesKeyed(t')
  {
    var notas := Some("Rol automático SuperAdmin");
    assert "Users" != "Dashboard" && "Users" != "SystemManagement" && "Dashboard" != "SystemManagement";
    var t1 := AssignRole(t, SuperAdmin, "Users", "admin", SuperAdmin, notas, now);
    var t2 := AssignRole(t1, SuperAdmin, "Dashboard", "viewer", SuperAdmin, notas, now);
    AssignKeepsAssigned(t1, SuperAdmin, "Dashboard", "viewer", SuperAdmin, notas, now, SuperAdmin, "Users", "admin", SuperAdmin, notas, now);
    var t3 := AssignRole(t2, SuperAdmin, "SystemManagement", "admin", SuperAdmin, notas, now);
    AssignKeepsAssigned(t2, SuperAdmin, "SystemManagement", "admin", SuperAdmin, notas, now, SuperAdmin, "Users", "admin", SuperAdmin, notas, now);
    AssignKeepsAssigned(t2, SuperAdmin, "SystemManagement", "admin", SuperAdmin, notas, now, SuperAdmin, "Dashboard", "viewer", SuperAdmin, notas, now);
    t3
  }

  /** The system administrator's block: editor of user management, viewer of the dashboard. */
  function SysAdminRoles(t: RoleTable, grantor: UserId, now: Time): (t': RoleTable)
    ensures t'.Keys == t.Keys + {(SysAdmin, "Users"), (SysAdmin, "Dashboard")}
    ensures forall k | k in t && k.0 != SysAdmin :: t'[k] == t[k]
    ensures AssignedBy(t', SysAdmin, "Users", "editor", grantor, Some("Rol SysAdmin"), now)
    ensures AssignedBy(t', SysAdmin, "Dashboard", "viewer", grantor, Some("Rol SysAdmin"), now)
    ensures RolesKeyed(t) ==> RolesKeyed(t')
  {
    assert "Users" != "Dashboard";
    var t := AssignRole(t, SysAdmin, "Users", "editor", grantor, Some("Rol SysAdmin"), now);
    AssignRole(t, SysAdmin, "Dashboard", "viewer", grantor, Some("Rol SysAdmin"), now)
  }

  /** The basic user's block: viewer of the dashboard. */
  function BasicUserRoles(t: RoleTable, grantor: UserId, now: Time): (t': RoleTable)
    ensures t'.Keys == t.Keys + {(BasicUser, "Dashboard")}
    ensures forall k | k in t && k.0 != BasicUser :: t'[k] == t[k]
    ensures AssignedBy(t', BasicUser, "Dashboard", "viewer", grantor, Some("Rol BasicUser"), now)
    ensures RolesKeyed(t) ==> RolesKeyed(t')
  {
    AssignRole(t, BasicUser, "Dashboard", "viewer", grantor, Some("Rol BasicUser"), now)
  }

  /**
   * The role assignments, in the order the provisioning makes them, at
   * instant `now`: again every call creates its row, giving the table below.
   */
  function SeededRoles(now: Time): (t: RoleTable)
    ensures t == ProvisionedRoles(now)
  {
    SuperAdminBlockRoles(now);
    SysAdminBlockRoles(now);
    FreshPairs(now);
    AssignCreates(RolesAfterSysAdmin(now), BasicUser, "Dashboard", "viewer", SuperAdmin, Some("Rol BasicUser"), now);
    BasicUserRoles(SysAdminRoles(SuperAdminRoles(map[], now), SuperAdmin, now), SuperAdmin, now)
  }

  /** The grant table after the super-administrator's block, written out row by row. */
  function AccessAfterSuperAdmin(now: Time): AccessTable
  {
    map[(SuperAdmin, "Users") := AccessGrant(SuperAdmin, "Users", true, now, None, SuperAdmin, Some("Acceso automático SuperAdmin")),
        (SuperAdmin, "Dashboard") := AccessGrant(SuperAdmin, "Dashboard", true, now, None, SuperAdmin, Some("Acceso automático SuperAdmin")),
        (SuperAdmin, "SystemManagement") := AccessGrant(SuperAdmin, "SystemManagement", true, now, None, SuperAdmin, Some("Acceso automático SuperAdmin"))]
  }

  /** The grant table after the system administrator's block. */
  function AccessAfterSysAdmin(now: Time): AccessTable
  {
    AccessAfterSuperAdmin(now)
      [(SysAdmin, "Users") := AccessGrant(SysAdmin, "Users", true, now, None, SuperAdmin, Some("Acceso SysAdmin"))]
      [(SysAdmin, "Dashboard") := AccessGrant(SysAdmin, "Dashboard", true, now, None, SuperAdmin, Some("Acceso SysAdmin"))]
  }

  /** The grant table the provisioning leaves: six rows, none expiring. */
  function ProvisionedAccess(now: Time): AccessTable
  {
    AccessAfterSysAdmin(now)[(BasicUser, "Dashboard") := AccessGrant(BasicUser, "Dashboard", true, now, None, SuperAdmin, Some("Acceso BasicUser"))]
  }

  /** The role table after the super-administrator's block, written out row by row. */
  function RolesAfterSuperAdmin(now: Time): RoleTable
  {
    map[(SuperAdmin, "Users") := RoleAssignment(SuperAdmin, "Users", "admin", true, now, None, SuperAdmin, Some("Rol automático SuperAdmin")),
        (SuperAdmin, "Dashboard") := RoleAssignment(SuperAdmin, "Dashboard", "viewer", true, now, None, SuperAdmin, Some("Rol automático SuperAdmin")),
        (SuperAdmin, "SystemManagement") := RoleAssignment(SuperAdmin, "SystemManagement", "admin", true, now, None, SuperAdmin, Some("Rol automático SuperAdmin"))]
  }

  /** The role table after the system administrator's block. */
  function RolesAfterSysAdmin(now: Time): RoleTable
  {
    RolesAfterSuperAdmin(now)
      [(SysAdmin, "Users") := RoleAssignment(SysAdmin, "Users", "editor", true, now, None, SuperAdmin, Some("Rol SysAdmin"))]
      [(SysAdmin, "Dashboard") := RoleAssignment(SysAdmin, "Dashboard", "viewer", true, now, None, SuperAdmin, Some("Rol SysAdmin"))]
  }

  /** The role table the provisioning leaves: six active rows, none expiring. */
  function ProvisionedRoles(now: Time): RoleTable
  {
    RolesAfterSysAdmin(now)[(BasicUser, "Dashboard") := RoleAssignment(BasicUser, "Dashboard", "viewer", true, now, None, SuperAdmin, Some("Rol BasicUser"))]
  }

  /** A grant on a pair with no row creates a fresh row that never expires. */
  lemma GrantCreates(t: AccessTable, u: UserId, nombreModulo: string, asignadoPor: UserId, notas: Option<string>, now: Time)
    requires (u, nombreModulo) !in t
    ensures GrantAccess(t, u, nombreModulo, asignadoPor, notas, now) ==
      t[(u, nombreModulo) := AccessGrant(u, nombreModulo, true, now, None, asignadoPor, notas)]
  {
  }

  /** An assignment on a pair with no row creates a fresh active row that never expires. */
  lemma AssignCreates(
    t: RoleTable, u: UserId, nombreModulo: string, rol: string, asignadoPor: UserId, notas: Option<string>, now: Time)
    requires (u, nombreModulo) !in t
    ensures AssignRole(t, u, nombreModulo, rol, asignadoPor, notas, now) ==
      t[(u, nombreModulo) := RoleAssignment(u, nombreModulo, rol, true, now, None, asignadoPor, notas)]
  {
  }

  /** The pairs each later block touches have no row yet when it starts. */
  lemma FreshPairs(now: Time)
    ensures (SysAdmin, "Users") !in AccessAfterSuperAdmin(now) && (SysAdmin, "Dashboard") !in AccessAfterSuperAdmin(now)
    ensures (SysAdmin, "Users") !in RolesAfterSuperAdmin(now) && (SysAdmin, "Dashboard") !in RolesAfterSuperAdmin(now)
    ensures (BasicUser, "Dashboard") !in AccessAfterSysAdmin(now) && (BasicUser, "Dashboard") !in RolesAfterSysAdmin(now)
  {
  }

  lemma {:induction false} SuperAdminBlockGrants(now: Time)
    ensures SuperAdminGrants(map[], now) == AccessAfterSuperAdmin(now)
  {
    var t0: AccessTable := map[];
    GrantCreates(t0, SuperAdmin, "Users", SuperAdmin, Some("Acceso automático SuperAdmin"), now);
    var t1 := GrantAccess(t0, SuperAdmin, "Users", SuperAdmin, Some("Acceso automático SuperAdmin"), now);
    GrantCreates(t1, SuperAdmin, "Dashboard", SuperAdmin, Some("Acceso automático SuperAdmin"), now);
    var t2 := GrantAccess(t1, SuperAdmin, "Dashboard", SuperAdmin, Some("Acceso automático SuperAdmin"), now);
    GrantCreates(t2, SuperAdmin, "SystemManagement", SuperAdmin, Some("Acceso automático SuperAdmin"), now);
  }

  lemma {:induction false} SysAdminBlockGrants(now: Time)
    ensures SysAdminGrants(AccessAfterSuperAdmin(now), SuperAdmin, now) == AccessAfterSysAdmin(now)
  {
    FreshPairs(now);
    var t3 := AccessAfterSuperAdmin(now);
    GrantCreates(t3, SysAdmin, "Users", SuperAdmin, Some("Acceso SysAdmin"), now);
    var t4 := GrantAccess(t3, SysAdmin, "Users", SuperAdmin, Some("Acceso SysAdmin"), now);
    GrantCreates(t4, SysAdmin, "Dashboard", SuperAdmin, Some("Acceso SysAdmin"), now);
  }


  lemma {:induction false} SuperAdminBlockRoles(now: Time)
    ensures SuperAdminRoles(map[], now) == RolesAfterSuperAdmin(now)
  {
    var t0: RoleTable := map[];
    AssignCreates(t0, SuperAdmin, "Users", "admin", SuperAdmin, Some("Rol automático SuperAdmin"), now);
    var t1 := AssignRole(t0, SuperAdmin, "Users", "admin", SuperAdmin, Some("Rol automático SuperAdmin"), now);
    AssignCreates(t1, SuperAdmin, "Dashboard", "viewer", SuperAdmin, Some("Rol automático SuperAdmin"), now);
    var t2 := AssignRole(t1, SuperAdmin, "Dashboard", "viewer", SuperAdmin, Some("Rol automático SuperAdmin"), now);
    AssignCreates(t2, SuperAdmin, "SystemManagement", "admin", SuperAdmin, Some("Rol automático SuperAdmin"), now);
  }

  lemma {:induction false} SysAdminBlockRoles(now: Time)
    ensures SysAdminRoles(RolesAfterSuperAdmin(now), SuperAdmin, now) == RolesAfterSysAdmin(now)
  {
    FreshPairs(now);
    var t3 := RolesAfterSuperAdmin(now);
    AssignCreates(t3, SysAdmin, "Users", "editor", SuperAdmin, Some("Rol SysAdmin"), now);
    var t4 := AssignRole(t3, SysAdmin, "Users", "editor", SuperAdmin, Some("Rol SysAdmin"), now);
    AssignCreates(t4, SysAdmin, "Dashboard", "viewer", SuperAdmin, Some("Rol SysAdmin"), now);
  }


  /** Storing a row under its own user and module keeps a table keyed. */
  lemma KeyedUpdate(t: AccessTable, g: AccessGrant)
    requires AccessKeyed(t)
    ensures AccessKeyed(t[(g.userId, g.nombreModulo) := g])
  {
  }

  /** Each provisioned grant is stored under its own user and module. */
  lemma {:induction false} ProvisionedKeyed(now: Time)
    ensures AccessKeyed(ProvisionedAccess(now))
  {
    var t := AccessAfterSuperAdmin(now);
    assert AccessKeyed(t);
    KeyedUpdate(t, AccessGrant(SysAdmin, "Users", true, now, None, SuperAdmin, Some("Acceso SysAdmin")));
    var t' := t[(SysAdmin, "Users") := AccessGrant(SysAdmin, "Users", true, now, None, SuperAdmin, Some("Acceso SysAdmin"))];
    KeyedUpdate(t', AccessGrant(SysAdmin, "Dashboard", true, now, None, SuperAdmin, Some("Acceso SysAdmin")));
    KeyedUpdate(AccessAfterSysAdmin(now), AccessGrant(BasicUser, "Dashboard", true, now, None, SuperAdmin, Some("Acceso BasicUser")));
  }

  // The provisioned tables equal the replay (SeededAccess, SeededRoles);
  // the facts below are stated on them.

  /** The system administrator edits users, may therefore also view them, but does not administer them. */
  lemma SysAdminPermissions(now: Time, later: Time)
    ensures !CanPerformInModule(ProvisionedAccess(now), ProvisionedRoles(now), SysAdmin, "Users", "admin", later)
    ensures CanPerformInModule(ProvisionedAccess(now), ProvisionedRoles(now), SysAdmin, "Users", "editor", later)
    ensures CanPerformInModule(ProvisionedAccess(now), ProvisionedRoles(now), SysAdmin, "Users", "viewer", later)
  {
  }

  /** No grant was made to the system administrator for system management, so no requirement is met there. */
  lemma SysAdminOutsideSystemManagement(now: Time, later: Time, requiredRole: string)
    ensures !CanPerformInModule(ProvisionedAccess(now), ProvisionedRoles(now), SysAdmin, "SystemManagement", requiredRole, later)
  {
  }

  /** The super-administrator administers system management. */
  lemma SuperAdminPermissions(now: Time, later: Time)
    ensures CanPerformInModule(ProvisionedAccess(now), ProvisionedRoles(now), SuperAdmin, "SystemManagement", "admin", later)
  {
  }

  /** The basic user holds exactly "viewer" on the dashboard and cannot edit it. */
  lemma BasicUserPermissions(now: Time, later: Time)
    ensures HasRoleInModule(ProvisionedRoles(now), BasicUser, "Dashboard", "viewer", later)
    ensures !CanPerformInModule(ProvisionedAccess(now), ProvisionedRoles(now), BasicUser, "Dashboard", "editor", later)
  {
  }

  /** The names of the modules a user's provisioned grants in force cover. */
  lemma {:induction false} ProvisionedNames(now: Time, later: Time)
    ensures var names := AccessibleNames(ProvisionedAccess(now), SysAdmin, later);
      "Users" in names && "Dashboard" in names && "SystemManagement" !in names
    ensures var names := AccessibleNames(ProvisionedAccess(now), BasicUser, later);
      "Dashboard" in names && "Users" !in names && "SystemManagement" !in names
  {
    ProvisionedKeyed(now);
    var t := ProvisionedAccess(now);
    AccessibleNamesExact(t, SysAdmin, later, "Users");
    AccessibleNamesExact(t, SysAdmin, later, "Dashboard");
    AccessibleNamesExact(t, SysAdmin, later, "SystemManagement");
    AccessibleNamesExact(t, BasicUser, later, "Users");
    AccessibleNamesExact(t, BasicUser, later, "Dashboard");
    AccessibleNamesExact(t, BasicUser, later, "SystemManagement");
  }

  /** The seeded records named in `names`, for names covering user management and the dashboard but not system management. */
  lemma {:induction false} RegistryNamedTwo(names: set<string>)
    requires "Users" in names && "Dashboard" in names && "SystemManagement" !in names
    ensures Filter(SeededRegistry, NameIn(names)) == [UsersModule, DashboardModule]
  {
    var p := NameIn(names);
    assert SeededRegistry[1..] == [DashboardModule, SystemModule];
    assert [DashboardModule, SystemModule][1..] == [SystemModule];
    assert Filter([SystemModule], p) == [];
  }

  /** The seeded records named in `names`, for names covering the dashboard only. */
  lemma {:induction false} RegistryNamedOne(names: set<string>)
    requires "Dashboard" in names && "Users" !in names && "SystemManagement" !in names
    ensures Filter(SeededRegistry, NameIn(names)) == [DashboardModule]
  {
    var p := NameIn(names);
    assert SeededRegistry[1..] == [DashboardModule, SystemModule];
    assert [DashboardModule, SystemModule][1..] == [SystemModule];
    assert Filter([SystemModule], p) == [];
  }

  /** Sorting by display order puts the dashboard (order 0) before user management (order 1). */
  lemma {:induction false} MenuSorted()
    ensures OrdenadosPorPrioridad([UsersModule, DashboardModule]) == [DashboardModule, UsersModule]
    ensures OrdenadosPorPrioridad([DashboardModule]) == [DashboardModule]
  {
    assert [UsersModule, DashboardModule][1..] == [DashboardModule];
    assert [DashboardModule][1..] == [];
  }

  /**
   * The menus of the seeded registry: the system administrator sees the
   * dashboard (order 0) before user management (order 1) and no system
   * management; the basic user sees the dashboard alone.
   */
  lemma {:induction false} SeededMenus(now: Time, later: Time)
    ensures GetAccessibleModules(SeededRegistry, ProvisionedAccess(now), SysAdmin, later) == [DashboardModule, UsersModule]
    ensures GetAccessibleModules(SeededRegistry, ProvisionedAccess(now), BasicUser, later) == [DashboardModule]
  {
    ProvisionedNames(now, later);
    RegistryNamedTwo(AccessibleNames(ProvisionedAccess(now), SysAdmin, later));
    RegistryNamedOne(AccessibleNames(ProvisionedAccess(now), BasicUser, later));
    FilterKeepsAll([UsersModule, DashboardModule], EstaActivo);
    FilterKeepsAll([DashboardModule], EstaActivo);
    MenuSorted();
  }
}
