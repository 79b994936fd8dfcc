/**
 * The module registry (`modulos` table): one record per pluggable feature,
 * identified by its unique technical name, with an active flag and a display
 * order.  Soft-deleted records are absent from every sequence given here.
 */
module Registry {
  import opened Common
  import opened Query

  /** A registered module; `rolesDisponibles` is the JSON list of role names. */
  datatype Modulo = Modulo(
    nombre: string,
    nombreMostrar: string,
    estaActivo: bool,
    rolesDisponibles: seq<string>,
    ordenMostrar: int)

  /** The `nombre` column is unique across the registry. */
  ghost predicate UniqueNames(mods: seq<Modulo>)
  {
    forall i, j | 0 <= i < j < |mods| :: mods[i].nombre != mods[j].nombre
  }

  predicate EstaActivo(mod: Modulo)
  {
    mod.estaActivo
  }

  /** Scope `activos`: the modules whose active flag is set. */
  function Activos(mods: seq<Modulo>): (r: seq<Modulo>)
    ensures forall mod | mod in r :: mod in mods && mod.estaActivo
    ensures forall mod | mod in mods && mod.estaActivo :: mod in r
    ensures IsSubsequence(r, mods)
  {
    Filter(mods, EstaActivo)
  }

  lemma ActivosIdempotent(mods: seq<Modulo>)
    ensures Activos(Activos(mods)) == Activos(mods)
  {
    FilterIdempotent(mods, EstaActivo);
  }

  predicate OrdenLe(a: Modulo, b: Modulo)
  {
    a.ordenMostrar <= b.ordenMostrar
  }

  /** Non-decreasing in `ordenMostrar`. */
  ghost predicate SortedByOrden(mods: seq<Modulo>)
  {
    forall i, j | 0 <= i < j < |mods| :: OrdenLe(mods[i], mods[j])
  }

  /** A record no later than every element of a sorted sequence may lead it. */
  lemma PrependSorted(mod: Modulo, sorted: seq<Modulo>)
    requires SortedByOrden(sorted)
    requires forall x | x in sorted :: OrdenLe(mod, x)
    ensures SortedByOrden([mod] + sorted)
  {
    var r := [mod] + sorted;
    forall i, j | 0 <= i < j < |r| ensures OrdenLe(r[i], r[j]) {
      assert r[j] == sorted[j - 1];
      if i > 0 {
        assert r[i] == sorted[i - 1];
      }
    }
  }

  /** Inserts `mod` into a sorted sequence, before the first record it does not follow. */
  function InsertByOrden(mod: Modulo, sorted: seq<Modulo>): (r: seq<Modulo>)
    requires SortedByOrden(sorted)
    ensures SortedByOrden(r)
    ensures multiset(r) == multiset(sorted) + multiset{mod}
  {
    if sorted == [] then [mod]
    else if mod.ordenMostrar <= sorted[0].ordenMostrar then
      PrependSorted(mod, sorted);
      [mod] + sorted
    else
      var head, tail := sorted[0], sorted[1..];
      assert sorted == [head] + tail;
      assert SortedByOrden(tail) by {
        forall i, j | 0 <= i < j < |tail| ensures OrdenLe(tail[i], tail[j]) {
          assert tail[i] == sorted[i + 1] && tail[j] == sorted[j + 1];
        }
      }
      var rest := InsertByOrden(mod, tail);
      assert forall x | x in rest :: OrdenLe(head, x) by {
        forall x | x in rest ensures OrdenLe(head, x) {
          assert x in multiset(rest);
          if x != mod {
            assert x in multiset(tail);
            var k :| 0 <= k < |tail| && tail[k] == x;
            assert sorted[k + 1] == x;
          }
        }
      }
      PrependSorted(head, rest);
      [head] + rest
  }

  /**
   * Scope `ordenadosPorPrioridad` (`orderBy('orden_mostrar')`): the same
   * records, non-decreasing in display order.
   */
  function OrdenadosPorPrioridad(mods: seq<Modulo>): (r: seq<Modulo>)
    ensures SortedByOrden(r)
    ensures multiset(r) == multiset(mods)
  {
    if mods == [] then []
    else
      assert mods == [mods[0]] + mods[1..];
      InsertByOrden(mods[0], OrdenadosPorPrioridad(mods[1..]))
  }

  /**
   * The two scopes together, in either order: a sorted sequence holding
   * exactly the active records, each as often as in the input.
   */
  lemma ActivosOrdenados(mods: seq<Modulo>)
    ensures SortedByOrden(Activos(OrdenadosPorPrioridad(mods)))
    ensures SortedByOrden(OrdenadosPorPrioridad(Activos(mods)))
    ensures multiset(Activos(OrdenadosPorPrioridad(mods))) == multiset(Activos(mods))
    ensures multiset(OrdenadosPorPrioridad(Activos(mods))) == multiset(Activos(mods))
    ensures forall mod :: mod in Activos(OrdenadosPorPrioridad(mods)) <==> mod in mods && mod.estaActivo
  {
    var sorted := OrdenadosPorPrioridad(mods);
    FilterKeepsOrder(sorted, EstaActivo, OrdenLe);
    FilterSameRows(sorted, mods, EstaActivo);
    forall mod ensures mod in Activos(sorted) <==> mod in mods && mod.estaActivo {
      assert mod in mods <==> mod in multiset(sorted);
    }
  }

  /** The record a `belongsTo(Modulo, 'nombre_modulo', 'nombre')` relation loads: the first with that name. */
  function FindByName(mods: seq<Modulo>, name: string): (r: Option<Modulo>)
    ensures r.Some? ==> r.value in mods && r.value.nombre == name
    ensures r.None? <==> forall mod | mod in mods :: mod.nombre != name
  {
    if mods == [] then None
    else if mods[0].nombre == name then Some(mods[0])
    else FindByName(mods[1..], name)
  }

  /** With unique names, a registered record is exactly what a lookup of its name finds. */
  lemma {:induction false} FindByNameUnique(mods: seq<Modulo>, mod: Modulo)
    requires UniqueNames(mods)
    requires mod in mods
    ensures FindByName(mods, mod.nombre) == Some(mod)
  {
    if mods[0] != mod {
      assert mods[0].nombre != mod.nombre by {
        var k :| 0 <= k < |mods| && mods[k] == mod;
        assert k > 0;
      }
      assert mod in mods[1..];
      assert UniqueNames(mods[1..]) by {
        forall i, j | 0 <= i < j < |mods[1..]| ensures mods[1..][i].nombre != mods[1..][j].nombre {
          assert mods[1..][i] == mods[i + 1] && mods[1..][j] == mods[j + 1];
        }
      }
      FindByNameUnique(mods[1..], mod);
    }
  }
}
