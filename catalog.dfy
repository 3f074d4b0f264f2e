// The reference catalog of areas and its index by the composite key
// "idRelacion-idTipoRelacion", shared by the activity summary
// (ElementoResumen) and the generic record view (DataRender); plus the
// rating (valoracion) list and the goal (meta) record they both show.

module Catalog {
  import opened Common

  /** A catalog entry: relation id, display name and relation type. */
  datatype Area = Area(idRelacion: nat, nom: string, idTipoRelacion: nat)

  /** A rating option: id and display name. */
  datatype Valoracion = Valoracion(idValoracion: int, nom: string)

  /** A goal of an activity; every field may be `null`. */
  datatype Meta = Meta(
    idMeta: Option<int>,
    descripcion: Option<string>,
    resultado: Option<string>,
    observaciones: Option<string>,
    valoracion: Option<int>)

  // ---------------------------------------------------------------------
  // Composite key

  /** The template string `${idRelacion}-${idTipoRelacion}`. */
  function Key(idRelacion: nat, idTipoRelacion: nat): string {
    NatToString(idRelacion) + "-" + NatToString(idTipoRelacion)
  }

  function KeyOf(a: Area): string {
    Key(a.idRelacion, a.idTipoRelacion)
  }

  /** Distinct (id, type) pairs never share a key: the separator cannot occur
      inside a numeral, so the key splits back into its two numerals. */
  lemma KeyInjective(id1: nat, tipo1: nat, id2: nat, tipo2: nat)
    ensures Key(id1, tipo1) == Key(id2, tipo2) <==> id1 == id2 && tipo1 == tipo2
  {
    KeySplits(id1, tipo1);
    KeySplits(id2, tipo2);
    NatToStringInjective(id1, id2);
    NatToStringInjective(tipo1, tipo2);
  }

  /** Splitting a key on "-" gives back its two numerals. */
  lemma KeySplits(idRelacion: nat, idTipoRelacion: nat)
    ensures Split(Key(idRelacion, idTipoRelacion), '-') == [NatToString(idRelacion), NatToString(idTipoRelacion)]
  {
    var a, b := NatToString(idRelacion), NatToString(idTipoRelacion);
    assert '-' !in a && '-' !in b;
    SplitAtSeparator(a, '-', b);
    SplitNoSeparator(b, '-');
  }

  // ---------------------------------------------------------------------
  // Index

  /** The index after writing every entry of `areas`, in order, under its
      key: a later entry with the same key overwrites an earlier one. */
  function IndexOf(areas: seq<Area>): map<string, Area> {
    if areas == [] then map[]
    else IndexOf(areas[..|areas| - 1])[KeyOf(areas[|areas| - 1]) := areas[|areas| - 1]]
  }

  /** The `forEach` loop that fills the dictionary. */
  method BuildIndex(areas: seq<Area>) returns (index: map<string, Area>)
    ensures index == IndexOf(areas)
  {
    index := map[];
    for i := 0 to |areas|
      invariant index == IndexOf(areas[..i])
    {
      var area := areas[i];
      index := index[KeyOf(area) := area];
      assert areas[..i + 1][..i] == areas[..i];
    }
    assert areas[..|areas|] == areas;
  }

  /** Some catalog entry carries key `k`. */
  ghost predicate HasKey(areas: seq<Area>, k: string) {
    exists i :: 0 <= i < |areas| && KeyOf(areas[i]) == k
  }

  /** Entry `i` is the last catalog entry carrying key `k`. */
  ghost predicate LastWithKey(areas: seq<Area>, k: string, i: int) {
    0 <= i < |areas| && KeyOf(areas[i]) == k &&
    forall j :: i < j < |areas| ==> KeyOf(areas[j]) != k
  }

  /** The index holds exactly the keys of the catalog. */
  lemma {:induction false} IndexKeys(areas: seq<Area>, k: string)
    ensures k in IndexOf(areas) <==> HasKey(areas, k)
  {
    if areas != [] {
      var init := areas[..|areas| - 1];
      IndexKeys(init, k);
      if HasKey(init, k) {
        var i :| 0 <= i < |init| && KeyOf(init[i]) == k;
        assert areas[i] == init[i];
      }
      if HasKey(areas, k) {
        var i :| 0 <= i < |areas| && KeyOf(areas[i]) == k;
        if i < |init| {
          assert init[i] == areas[i];
        }
      }
    }
  }

  /** Each key of the index maps to the LAST catalog entry carrying it. */
  lemma {:induction false} IndexLastWriteWins(areas: seq<Area>, k: string)
    requires k in IndexOf(areas)
    ensures exists i :: LastWithKey(areas, k, i) && IndexOf(areas)[k] == areas[i]
  {
    var init, last := areas[..|areas| - 1], areas[|areas| - 1];
    if KeyOf(last) == k {
      assert LastWithKey(areas, k, |areas| - 1);
    } else {
      IndexLastWriteWins(init, k);
      var i :| LastWithKey(init, k, i) && IndexOf(init)[k] == init[i];
      assert areas[i] == init[i];
      assert LastWithKey(areas, k, i);
    }
  }

  /** `extraerRelacionCompleta`: the entry stored under the key of (id, type). */
  function Lookup(index: map<string, Area>, idRelacion: nat, idTipoRelacion: nat): Option<Area> {
    var key := Key(idRelacion, idTipoRelacion);
    if key in index then Some(index[key]) else None
  }

  /** A lookup finds an entry exactly when the catalog has an entry with that
      id AND that type, and what it finds is such an entry of the catalog. */
  lemma LookupFindsMatchingEntry(areas: seq<Area>, id: nat, tipo: nat)
    ensures Lookup(IndexOf(areas), id, tipo).Some? <==>
      exists i :: 0 <= i < |areas| && areas[i].idRelacion == id && areas[i].idTipoRelacion == tipo
    ensures Lookup(IndexOf(areas), id, tipo).Some? ==>
      var a := Lookup(IndexOf(areas), id, tipo).value;
      a in areas && a.idRelacion == id && a.idTipoRelacion == tipo
  {
    var k := Key(id, tipo);
    IndexKeys(areas, k);
    forall i | 0 <= i < |areas|
      ensures KeyOf(areas[i]) == k <==> areas[i].idRelacion == id && areas[i].idTipoRelacion == tipo
    {
      KeyInjective(areas[i].idRelacion, areas[i].idTipoRelacion, id, tipo);
    }
    if k in IndexOf(areas) {
      IndexLastWriteWins(areas, k);
    }
  }

  /** With no duplicate (id, type) pairs in the catalog, looking up the pair of
      an entry returns exactly that entry. */
  lemma LookupUniqueCatalog(areas: seq<Area>, i: nat)
    requires i < |areas|
    requires forall p, q :: 0 <= p < |areas| && 0 <= q < |areas| && KeyOf(areas[p]) == KeyOf(areas[q]) ==> p == q
    ensures Lookup(IndexOf(areas), areas[i].idRelacion, areas[i].idTipoRelacion) == Some(areas[i])
  {
    var k := KeyOf(areas[i]);
    IndexKeys(areas, k);
    IndexLastWriteWins(areas, k);
    var m :| LastWithKey(areas, k, m) && IndexOf(areas)[k] == areas[m];
    assert m == i;
  }

  // ---------------------------------------------------------------------
  // Resolution of id lists

  /** `ids.map(id => lookup(id, type)).filter(Boolean)`: the entries found,
      in the order of the ids; ids that find nothing are dropped. */
  function Resolve(index: map<string, Area>, ids: seq<nat>, idTipoRelacion: nat): (r: seq<Area>)
    ensures |r| <= |ids|
  {
    if ids == [] then []
    else
      var rest := Resolve(index, ids[1..], idTipoRelacion);
      match Lookup(index, ids[0], idTipoRelacion)
      case Some(a) => [a] + rest
      case None => rest
  }

  /** Resolution is exactly `ids.map(lookup).filter(Boolean)`: the lookups of
      the ids, in id order, with the misses dropped. */
  lemma {:induction false} ResolveIsMapFilter(index: map<string, Area>, ids: seq<nat>, tipo: nat)
    ensures Resolve(index, ids, tipo) ==
      Present(seq(|ids|, i requires 0 <= i < |ids| => Lookup(index, ids[i], tipo)))
  {
    var xs := seq(|ids|, i requires 0 <= i < |ids| => Lookup(index, ids[i], tipo));
    if ids != [] {
      var rest := ids[1..];
      ResolveIsMapFilter(index, rest, tipo);
      assert xs[1..] == seq(|rest|, i requires 0 <= i < |rest| => Lookup(index, rest[i], tipo));
    }
  }

  /** One `<li>` of an areas list: its heading, the relation type and the
      entries listed under it. */
  datatype AreaGroup = AreaGroup(nombre: string, idTipoRelacion: nat, items: seq<Area>)

  /** Every resolved entry is a catalog entry of the requested type whose id
      is among the requested ids, and every id that has such an entry
      contributes one. */
  lemma {:induction false} ResolveMembers(areas: seq<Area>, ids: seq<nat>, tipo: nat)
    ensures forall a :: a in Resolve(IndexOf(areas), ids, tipo) ==>
      a in areas && a.idTipoRelacion == tipo && a.idRelacion in ids
    ensures forall id :: id in ids && (exists a :: a in areas && a.idRelacion == id && a.idTipoRelacion == tipo) ==>
      exists a :: a in Resolve(IndexOf(areas), ids, tipo) && a.idRelacion == id
  {
    if ids != [] {
      ResolveMembers(areas, ids[1..], tipo);
      LookupFindsMatchingEntry(areas, ids[0], tipo);
      forall id | id in ids && (exists a :: a in areas && a.idRelacion == id && a.idTipoRelacion == tipo)
        ensures exists a :: a in Resolve(IndexOf(areas), ids, tipo) && a.idRelacion == id
      {
        if id == ids[0] {
          var a :| a in areas && a.idRelacion == id && a.idTipoRelacion == tipo;
          var i :| 0 <= i < |areas| && areas[i] == a;
          assert Lookup(IndexOf(areas), ids[0], tipo).Some?;
        } else {
          assert id in ids[1..];
        }
      }
    }
  }

  /** No id is dropped exactly when every id resolves; so one unresolved id
      makes the result strictly shorter than the id list. */
  lemma {:induction false} ResolveKeepsAll(index: map<string, Area>, ids: seq<nat>, tipo: nat)
    ensures |Resolve(index, ids, tipo)| == |ids| <==>
      forall i :: 0 <= i < |ids| ==> Lookup(index, ids[i], tipo).Some?
  {
    if ids != [] {
      ResolveKeepsAll(index, ids[1..], tipo);
      if forall i :: 0 <= i < |ids[1..]| ==> Lookup(index, ids[1..][i], tipo).Some? {
        if Lookup(index, ids[0], tipo).Some? {
          forall i | 0 <= i < |ids|
            ensures Lookup(index, ids[i], tipo).Some?
          {
            if i > 0 {
              assert ids[i] == ids[1..][i - 1];
            }
          }
        }
      } else {
        var i :| 0 <= i < |ids[1..]| && !Lookup(index, ids[1..][i], tipo).Some?;
        assert ids[i + 1] == ids[1..][i];
      }
    }
  }

  /** An empty catalog resolves nothing. */
  lemma {:induction false} ResolveEmptyCatalog(ids: seq<nat>, tipo: nat)
    ensures Resolve(IndexOf([]), ids, tipo) == []
  {
    if ids != [] {
      ResolveEmptyCatalog(ids[1..], tipo);
    }
  }

  // ---------------------------------------------------------------------
  // Ratings

  /** `valoraciones.find(v => v.idValoracion === id)?.nom`. */
  function FindValoracion(valoraciones: seq<Valoracion>, id: int): Option<string> {
    if valoraciones == [] then None
    else if valoraciones[0].idValoracion == id then Some(valoraciones[0].nom)
    else FindValoracion(valoraciones[1..], id)
  }

  /** The name found belongs to the first rating with that id; nothing is
      found exactly when no rating has that id. */
  lemma {:induction false} FindValoracionFirstMatch(valoraciones: seq<Valoracion>, id: int)
    ensures FindValoracion(valoraciones, id).None? <==>
      forall i :: 0 <= i < |valoraciones| ==> valoraciones[i].idValoracion != id
    ensures FindValoracion(valoraciones, id).Some? ==>
      exists i :: 0 <= i < |valoraciones| && valoraciones[i].idValoracion == id &&
        FindValoracion(valoraciones, id).value == valoraciones[i].nom &&
        forall j :: 0 <= j < i ==> valoraciones[j].idValoracion != id
  {
    if valoraciones != [] && valoraciones[0].idValoracion != id {
      var rest := valoraciones[1..];
      FindValoracionFirstMatch(rest, id);
      if FindValoracion(rest, id).Some? {
        var i :| 0 <= i < |rest| && rest[i].idValoracion == id &&
          FindValoracion(rest, id).value == rest[i].nom &&
          forall j :: 0 <= j < i ==> rest[j].idValoracion != id;
        assert valoraciones[i + 1] == rest[i];
        forall j | 0 <= j < i + 1
          ensures valoraciones[j].idValoracion != id
        {
          if j > 0 {
            assert valoraciones[j] == rest[j - 1];
          }
        }
      } else {
        forall i | 0 <= i < |valoraciones|
          ensures valoraciones[i].idValoracion != id
        {
          if i > 0 {
            assert valoraciones[i] == rest[i - 1];
          }
        }
      }
    } else if valoraciones != [] {
      assert valoraciones[0].idValoracion == id;
    }
  }
}
