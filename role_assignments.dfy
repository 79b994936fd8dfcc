/**
 * Rows of the `modulo_usuario_roles` table: the role a user holds inside a
 * module, whether the assignment is active, and until when.  The query
 * scopes of the row model are filters over a sequence of rows.
 */
module RoleAssignments {
  import opened Common
  import opened Query
  import opened Registry

  /** One role assignment; `(userId, nombreModulo)` is unique in the table. */
  datatype RoleAssignment = RoleAssignment(
    userId: UserId,
    nombreModulo: string,
    rolEnModulo: string,
    estaActivo: bool,
    rolAsignadoEn: Time,
    rolExpiraEn: Option<Time>,
    asignadoPor: UserId,
    notasAsignacion: Option<string>)

  /** An assignment in force at `now`: the flag is set and the expiry has not passed. */
  predicate IsActiveRole(a: RoleAssignment, now: Time)
  {
    a.estaActivo && NotExpired(a.rolExpiraEn, now)
  }

  function InForce(now: Time): RoleAssignment -> bool
  {
    (a: RoleAssignment) => IsActiveRole(a, now)
  }

  function InModulo(nombreModulo: string): RoleAssignment -> bool
  {
    (a: RoleAssignment) => a.nombreModulo == nombreModulo
  }

  function WithRol(rol: string): RoleAssignment -> bool
  {
    (a: RoleAssignment) => a.rolEnModulo == rol
  }

  /**
   * Scope `activos`: flag set AND (no expiry OR expiry after `now`).  An
   * expired row is excluded even while its flag is still set.
   */
  function Activos(rows: seq<RoleAssignment>, now: Time): (r: seq<RoleAssignment>)
    ensures forall a | a in r :: a in rows && a.estaActivo && NotExpired(a.rolExpiraEn, now)
    ensures forall a | a in rows && a.estaActivo && NotExpired(a.rolExpiraEn, now) :: a in r
    ensures IsSubsequence(r, rows)
  {
    Filter(rows, InForce(now))
  }

  /** Scope `porModulo`: the rows of one module. */
  function PorModulo(rows: seq<RoleAssignment>, nombreModulo: string): (r: seq<RoleAssignment>)
    ensures forall a | a in r :: a in rows && a.nombreModulo == nombreModulo
    ensures forall a | a in rows && a.nombreModulo == nombreModulo :: a in r
    ensures IsSubsequence(r, rows)
  {
    Filter(rows, InModulo(nombreModulo))
  }

  /** Scope `porRol`: the rows holding one role, compared as exact strings. */
  function PorRol(rows: seq<RoleAssignment>, rol: string): (r: seq<RoleAssignment>)
    ensures forall a | a in r :: a in rows && a.rolEnModulo == rol
    ensures forall a | a in rows && a.rolEnModulo == rol :: a in r
    ensures IsSubsequence(r, rows)
  {
    Filter(rows, WithRol(rol))
  }

  lemma ScopesIdempotent(rows: seq<RoleAssignment>, now: Time, nombreModulo: string, rol: string)
    ensures Activos(Activos(rows, now), now) == Activos(rows, now)
    ensures PorModulo(PorModulo(rows, nombreModulo), nombreModulo) == PorModulo(rows, nombreModulo)
    ensures PorRol(PorRol(rows, rol), rol) == PorRol(rows, rol)
  {
    FilterIdempotent(rows, InForce(now));
    FilterIdempotent(rows, InModulo(nombreModulo));
    FilterIdempotent(rows, WithRol(rol));
  }

  /** Any two of the three scopes may be chained in either order. */
  lemma ScopesCommute(rows: seq<RoleAssignment>, now: Time, nombreModulo: string, rol: string)
    ensures PorModulo(Activos(rows, now), nombreModulo) == Activos(PorModulo(rows, nombreModulo), now)
    ensures PorRol(Activos(rows, now), rol) == Activos(PorRol(rows, rol), now)
    ensures PorRol(PorModulo(rows, nombreModulo), rol) == PorModulo(PorRol(rows, rol), nombreModulo)
  {
    FilterCommutes(rows, InForce(now), InModulo(nombreModulo));
    FilterCommutes(rows, InForce(now), WithRol(rol));
    FilterCommutes(rows, InModulo(nombreModulo), WithRol(rol));
  }

  /** Relation `modulo()`: the registry record named by the row's `nombre_modulo`. */
  function ModuloOf(registry: seq<Modulo>, a: RoleAssignment): (r: Option<Modulo>)
    ensures r.Some? ==> r.value in registry && r.value.nombre == a.nombreModulo
    ensures r.None? ==> forall mod | mod in registry :: mod.nombre != a.nombreModulo
  {
    FindByName(registry, a.nombreModulo)
  }

  /** Relation `usuariosConRoles()` of a module: its role rows, matched by name. */
  function UsuariosConRoles(mod: Modulo, rows: seq<RoleAssignment>): (r: seq<RoleAssignment>)
    ensures forall a | a in r :: a in rows && a.nombreModulo == mod.nombre
    ensures forall a | a in rows && a.nombreModulo == mod.nombre :: a in r
    ensures IsSubsequence(r, rows)
  {
    PorModulo(rows, mod.nombre)
  }

  /**
   * With unique module names the two relations are inverse: a row is among a
   * registered module's role rows exactly when that module is the row's `modulo()`.
   */
  lemma RelationsInverse(registry: seq<Modulo>, mod: Modulo, rows: seq<RoleAssignment>, a: RoleAssignment)
    requires UniqueNames(registry)
    requires mod in registry
    requires a in rows
    ensures a in UsuariosConRoles(mod, rows) <==> ModuloOf(registry, a) == Some(mod)
  {
    FindByNameUnique(registry, mod);
  }
}
