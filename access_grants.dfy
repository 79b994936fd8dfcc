/**
 * Rows of the `modulo_usuario_acceso` table: whether a user may use a module
 * at all, since when, until when and on whose authority.  The query scopes
 * of the row model are filters over a sequence of rows.
 */
module AccessGrants {
  import opened Common
  import opened Query
  import opened Registry

  /** One access grant; `(userId, nombreModulo)` is unique in the table. */
  datatype AccessGrant = AccessGrant(
    userId: UserId,
    nombreModulo: string,
    tieneAcceso: bool,
    accesoOtorgadoEn: Time,
    accesoExpiraEn: Option<Time>,
    asignadoPor: UserId,
    notas: Option<string>)

  /** A grant in force at `now`: the flag is set and the expiry has not passed. */
  predicate IsActiveGrant(g: AccessGrant, now: Time)
  {
    g.tieneAcceso && NotExpired(g.accesoExpiraEn, now)
  }

  predicate TieneAcceso(g: AccessGrant)
  {
    g.tieneAcceso
  }

  function Unexpired(now: Time): AccessGrant -> bool
  {
    (g: AccessGrant) => NotExpired(g.accesoExpiraEn, now)
  }

  /** Scope `conAcceso`: the rows whose access flag is set. */
  function ConAcceso(rows: seq<AccessGrant>): (r: seq<AccessGrant>)
    ensures forall g | g in r :: g in rows && g.tieneAcceso
    ensures forall g | g in rows && g.tieneAcceso :: g in r
    ensures IsSubsequence(r, rows)
  {
    Filter(rows, TieneAcceso)
  }

  /**
   * Scope `activos`: the rows with no expiry or an expiry after `now`.  It
   * looks at the expiry only, so a revoked row that has not expired passes.
   */
  function Activos(rows: seq<AccessGrant>, now: Time): (r: seq<AccessGrant>)
    ensures forall g | g in r :: g in rows && NotExpired(g.accesoExpiraEn, now)
    ensures forall g | g in rows && NotExpired(g.accesoExpiraEn, now) :: g in r
    ensures IsSubsequence(r, rows)
  {
    Filter(rows, Unexpired(now))
  }

  lemma ScopesIdempotent(rows: seq<AccessGrant>, now: Time)
    ensures ConAcceso(ConAcceso(rows)) == ConAcceso(rows)
    ensures Activos(Activos(rows, now), now) == Activos(rows, now)
  {
    FilterIdempotent(rows, TieneAcceso);
    FilterIdempotent(rows, Unexpired(now));
  }

  /**
   * `conAcceso` and `activos` applied in either order give the same rows:
   * exactly those in force at `now`, in their original order.
   */
  lemma ScopesCompose(rows: seq<AccessGrant>, now: Time)
    ensures ConAcceso(Activos(rows, now)) == Activos(ConAcceso(rows), now)
    ensures forall g :: g in ConAcceso(Activos(rows, now)) <==> g in rows && IsActiveGrant(g, now)
  {
    FilterCommutes(rows, Unexpired(now), TieneAcceso);
  }

  /** Relation `modulo()`: the registry record named by the row's `nombre_modulo`. */
  function ModuloOf(registry: seq<Modulo>, g: AccessGrant): (r: Option<Modulo>)
    ensures r.Some? ==> r.value in registry && r.value.nombre == g.nombreModulo
    ensures r.None? ==> forall mod | mod in registry :: mod.nombre != g.nombreModulo
  {
    FindByName(registry, g.nombreModulo)
  }

  function ForModulo(mod: Modulo): AccessGrant -> bool
  {
    (g: AccessGrant) => g.nombreModulo == mod.nombre
  }

  /** Relation `usuariosConAcceso()` of a module: its grant rows, matched by name. */
  function UsuariosConAcceso(mod: Modulo, rows: seq<AccessGrant>): (r: seq<AccessGrant>)
    ensures forall g | g in r :: g in rows && g.nombreModulo == mod.nombre
    ensures forall g | g in rows && g.nombreModulo == mod.nombre :: g in r
    ensures IsSubsequence(r, rows)
  {
    Filter(rows, ForModulo(mod))
  }

  /**
   * With unique module names the two relations are inverse: a row is among a
   * registered module's grants exactly when that module is the row's `modulo()`.
   */
  lemma RelationsInverse(registry: seq<Modulo>, mod: Modulo, rows: seq<AccessGrant>, g: AccessGrant)
    requires UniqueNames(registry)
    requires mod in registry
    requires g in rows
    ensures g in UsuariosConAcceso(mod, rows) <==> ModuloOf(registry, g) == Some(mod)
  {
    FindByNameUnique(registry, mod);
  }
}
