// The generic record view (DataRender): one output per field of a record, a
// label for each scalar field (a Spanish title or the field name turned into
// words), and four known list fields drawn as blocks. The areas list here is
// resolved against the same catalog index as in the activity summary, but
// kept in the order of the ids.

module DataRender {
  import opened Common
  import opened Catalog
  import Sorting
  import ElementoResumen

  // ---------------------------------------------------------------------
  // Field names as labels (camelCaseToHuman)

  /** `str.replace(/([A-Z])/g, ' $1')`: a space before every capital A-Z. */
  function SpaceBeforeCapitals(s: string): string {
    if s == [] then []
    else (if IsUpper(s[0]) then [' ', s[0]] else [s[0]]) + SpaceBeforeCapitals(s[1..])
  }

  /** `.replace(/^./, c => c.toUpperCase())`: the first character in upper
      case, unless the text is empty or starts with a line terminator, which
      `.` does not match. */
  function UppercaseFirst(s: string): (r: string)
    ensures |r| == |s|
  {
    if s != [] && !IsLineTerminator(s[0]) then [ToUpper(s[0])] + s[1..] else s
  }

  /** `camelCaseToHuman`. */
  function CamelCaseToHuman(s: string): string {
    UppercaseFirst(SpaceBeforeCapitals(s))
  }

  /** The number of capitals A-Z in `s`. */
  function CountCapitals(s: string): nat {
    if s == [] then 0 else (if IsUpper(s[0]) then 1 else 0) + CountCapitals(s[1..])
  }

  /** Removes each space that stands directly before a capital: the inverse
      of `SpaceBeforeCapitals`. */
  function RemoveSpacesBeforeCapitals(t: string): string {
    if t == [] then []
    else if |t| >= 2 && t[0] == ' ' && IsUpper(t[1]) then RemoveSpacesBeforeCapitals(t[1..])
    else [t[0]] + RemoveSpacesBeforeCapitals(t[1..])
  }

  /** One space is added per capital and nothing else changes length. */
  lemma {:induction false} SpaceBeforeCapitalsLength(s: string)
    ensures |SpaceBeforeCapitals(s)| == |s| + CountCapitals(s)
  {
    if s != [] {
      SpaceBeforeCapitalsLength(s[1..]);
    }
  }

  /** Every capital of the result has a space just before it. */
  lemma {:induction false} CapitalsFollowSpace(s: string)
    ensures var r := SpaceBeforeCapitals(s);
      forall i :: 0 <= i < |r| && IsUpper(r[i]) ==> 0 < i && r[i - 1] == ' '
  {
    if s != [] {
      CapitalsFollowSpace(s[1..]);
      SpacedStartsWithoutCapital(s[1..]);
      var head := if IsUpper(s[0]) then [' ', s[0]] else [s[0]];
      var rest := SpaceBeforeCapitals(s[1..]);
      var r := head + rest;
      forall i | 0 <= i < |r| && IsUpper(r[i])
        ensures 0 < i && r[i - 1] == ' '
      {
        if i >= |head| {
          assert r[i] == rest[i - |head|];
          assert i - |head| > 0;
          assert r[i - 1] == rest[i - 1 - |head|];
        }
      }
    }
  }

  /** The spaced text never starts with a capital (a capital gets its space
      first). */
  lemma SpacedStartsWithoutCapital(s: string)
    ensures SpaceBeforeCapitals(s) != [] ==> !IsUpper(SpaceBeforeCapitals(s)[0])
  {
  }

  /** Removing the spaces before capitals gives back the original name. */
  lemma {:induction false} RemoveSpacesRoundTrip(s: string)
    ensures RemoveSpacesBeforeCapitals(SpaceBeforeCapitals(s)) == s
  {
    if s != [] {
      var rest := SpaceBeforeCapitals(s[1..]);
      RemoveSpacesRoundTrip(s[1..]);
      SpacedStartsWithoutCapital(s[1..]);
      if IsUpper(s[0]) {
        var t := [' ', s[0]] + rest;
        assert t[1..] == [s[0]] + rest;
        assert ([s[0]] + rest)[1..] == rest;
      } else {
        var t := [s[0]] + rest;
        assert t[1..] == rest;
      }
      assert s == [s[0]] + s[1..];
    }
  }

  /** For a camel-case name starting with a small letter the label is that
      letter in capital followed by the spaced rest; lowering the first
      letter and removing the added spaces gives back the name. */
  lemma HumanLabelRoundTrip(s: string)
    requires s != [] && IsLower(s[0])
    ensures CamelCaseToHuman(s) == [ToUpper(s[0])] + SpaceBeforeCapitals(s[1..])
    ensures var h := CamelCaseToHuman(s);
      [ToLower(h[0])] + RemoveSpacesBeforeCapitals(h[1..]) == s
  {
    var spaced := SpaceBeforeCapitals(s);
    assert spaced == [s[0]] + SpaceBeforeCapitals(s[1..]);
    assert spaced[1..] == SpaceBeforeCapitals(s[1..]);
    RemoveSpacesRoundTrip(s[1..]);
    assert s == [s[0]] + s[1..];
  }

  /** A two-word name such as "fechaDesde" reads as its first word with a
      capital, a space, and the second word: "Fecha Desde". */
  lemma TwoWordLabel(a: string, c: char, b: string)
    requires a != [] && IsLower(a[0]) && IsUpper(c)
    requires forall i :: 0 <= i < |a| ==> !IsUpper(a[i])
    requires forall i :: 0 <= i < |b| ==> !IsUpper(b[i])
    ensures CamelCaseToHuman(a + [c] + b) == [ToUpper(a[0])] + a[1..] + [' ', c] + b
  {
    var spaced := a + [' ', c] + b;
    SpacedTwoWords(a, c, b);
    assert spaced[0] == a[0];
    assert spaced[1..] == a[1..] + [' ', c] + b;
  }

  lemma SpacedTwoWords(a: string, c: char, b: string)
    requires IsUpper(c)
    requires forall i :: 0 <= i < |a| ==> !IsUpper(a[i])
    requires forall i :: 0 <= i < |b| ==> !IsUpper(b[i])
    ensures SpaceBeforeCapitals(a + [c] + b) == a + [' ', c] + b
  {
    var cb := [c] + b;
    calc {
      SpaceBeforeCapitals(a + [c] + b);
      { assert a + [c] + b == a + cb; }
      SpaceBeforeCapitals(a + cb);
      { SpaceBeforeCapitalsAppend(a, cb); }
      SpaceBeforeCapitals(a) + SpaceBeforeCapitals(cb);
      { NoCapitalsUnchanged(a); }
      a + SpaceBeforeCapitals(cb);
      { assert cb[0] == c && cb[1..] == b; NoCapitalsUnchanged(b); }
      a + ([' ', c] + b);
      a + [' ', c] + b;
    }
  }

  /** "fechaDesde" reads "Fecha Desde". */
  lemma FechaDesdeLabel()
    ensures CamelCaseToHuman("fechaDesde") == "Fecha Desde"
  {
    var a, b := "fecha", "esde";
    assert "fechaDesde" == a + ['D'] + b;
    TwoWordLabel(a, 'D', b);
    assert [ToUpper(a[0])] + a[1..] + [' ', 'D'] + b == "Fecha Desde";
  }

  /** A text without capitals is left as it is. */
  lemma {:induction false} NoCapitalsUnchanged(s: string)
    requires forall i :: 0 <= i < |s| ==> !IsUpper(s[i])
    ensures SpaceBeforeCapitals(s) == s
  {
    if s != [] {
      NoCapitalsUnchanged(s[1..]);
    }
  }

  lemma {:induction false} SpaceBeforeCapitalsAppend(a: string, b: string)
    ensures SpaceBeforeCapitals(a + b) == SpaceBeforeCapitals(a) + SpaceBeforeCapitals(b)
  {
    if a != [] {
      assert (a + b)[1..] == a[1..] + b;
      SpaceBeforeCapitalsAppend(a[1..], b);
    } else {
      assert a + b == b;
    }
  }

  // ---------------------------------------------------------------------
  // Ratings (stringValoracion)

  /** `stringValoracion(meta.valoracion)`: a `null` rating matches no rating
      id, so it names nothing. */
  function StringValoracion(valoraciones: seq<Valoracion>, valoracion: Option<int>): (r: Option<string>)
    ensures valoracion.None? ==> r.None?
    ensures r.None? <==>
      (valoracion.None? || forall i :: 0 <= i < |valoraciones| ==> valoraciones[i].idValoracion != valoracion.value)
    ensures r.Some? ==>
      exists i :: && 0 <= i < |valoraciones|
                  && valoraciones[i].idValoracion == valoracion.value && valoraciones[i].nom == r.value
                  && forall j :: 0 <= j < i ==> valoraciones[j].idValoracion != valoracion.value
  {
    if valoracion.None? then None
    else
      FindValoracionFirstMatch(valoraciones, valoracion.value);
      FindValoracion(valoraciones, valoracion.value)
  }

  // ---------------------------------------------------------------------
  // Areas in id order (renderArea without sorting)

  /** `renderArea` of the record view: nothing for an empty id list or when
      no id resolves; otherwise the resolved entries in the order of the
      ids. */
  function RenderAreaInOrder(index: map<string, Area>, data: seq<nat>, idTipoRelacion: nat, nombre: string)
    : Option<AreaGroup>
  {
    if |data| == 0 then None
    else
      var items := Resolve(index, data, idTipoRelacion);
      if items == [] then None else Some(AreaGroup(nombre, idTipoRelacion, items))
  }

  /** A group is produced exactly when some id resolves; its entries are the
      lookups of the ids in the order of the id list, misses dropped and no
      sort applied; they are catalog entries of the type asked for, and when
      every id resolves none is dropped. */
  lemma RenderAreaInOrderSpec(areas: seq<Area>, data: seq<nat>, tipo: nat, nombre: string)
    ensures var r := RenderAreaInOrder(IndexOf(areas), data, tipo, nombre);
      && (r.None? <==> Resolve(IndexOf(areas), data, tipo) == [])
      && (r.Some? ==>
        && r.value.nombre == nombre && r.value.idTipoRelacion == tipo
        && r.value.items == Present(seq(|data|, i requires 0 <= i < |data| => Lookup(IndexOf(areas), data[i], tipo)))
        && 0 < |r.value.items| <= |data|
        && (forall a :: a in r.value.items ==> a in areas && a.idTipoRelacion == tipo && a.idRelacion in data)
        && ((forall i :: 0 <= i < |data| ==> Lookup(IndexOf(areas), data[i], tipo).Some?) ==>
              |r.value.items| == |data|))
  {
    ResolveMembers(areas, data, tipo);
    ResolveKeepsAll(IndexOf(areas), data, tipo);
    ResolveIsMapFilter(IndexOf(areas), data, tipo);
  }

  /** The summary card lists the same entries as the record view, sorted by
      name: its group is the stable sort of this one's. */
  lemma SummaryIsSortedView(index: map<string, Area>, data: seq<nat>, tipo: nat, nombre: string)
    ensures var plain := RenderAreaInOrder(index, data, tipo, nombre);
      var sorted := ElementoResumen.RenderArea(index, Some(data), tipo, nombre);
      && (plain.Some? <==> sorted.Some?)
      && (plain.Some? ==>
            && sorted.value.items == Sorting.Sort(plain.value.items, ElementoResumen.ByNom)
            && multiset(sorted.value.items) == multiset(plain.value.items))
  {
    Sorting.SortLength(Resolve(index, data, tipo), ElementoResumen.ByNom);
  }

  const NOMBRE_INTERNAS_SECRETARIA := "Internas Secretaria"
  const NOMBRE_INTERNAS_UNL := "Internas UNL"
  const NOMBRE_UNIDADES_ACADEMICAS := "Unidades Académicas involucradas"
  const NOMBRE_PROGRAMAS_EXTENSION := "Programas de Extensión"

  /** The headings of the four groups of the `listaRelaciones` block, by
      type. */
  const NOMBRES_RELACIONES: seq<string> :=
    [NOMBRE_INTERNAS_SECRETARIA, NOMBRE_INTERNAS_UNL, NOMBRE_UNIDADES_ACADEMICAS, NOMBRE_PROGRAMAS_EXTENSION]

  /** The four `renderArea` calls of the `listaRelaciones` block, all on the
      same id list, for types 1 to 4. */
  function RelacionesCandidates(index: map<string, Area>, data: seq<nat>): seq<Option<AreaGroup>> {
    [RenderAreaInOrder(index, data, 1, NOMBRE_INTERNAS_SECRETARIA),
     RenderAreaInOrder(index, data, 2, NOMBRE_INTERNAS_UNL),
     RenderAreaInOrder(index, data, 3, NOMBRE_UNIDADES_ACADEMICAS),
     RenderAreaInOrder(index, data, 4, NOMBRE_PROGRAMAS_EXTENSION)]
  }

  lemma CandidateInOrder(areas: seq<Area>, data: seq<nat>, tipo: nat, nombre: string)
    ensures var r := RenderAreaInOrder(IndexOf(areas), data, tipo, nombre);
      && ElementoResumen.CandidateOk(areas, r, tipo, data, nombre)
      && (r.Some? <==> Resolve(IndexOf(areas), data, tipo) != [])
  {
    RenderAreaInOrderSpec(areas, data, tipo, nombre);
  }

  // ---------------------------------------------------------------------
  // Record fields and their rendering

  /** An element of an array field: an id, or one of the three records the
      known lists hold. */
  datatype Elem =
    | IdElem(id: nat)
    | MetaElem(meta: Meta)
    | InstitucionElem(idInstitucion: int, nom: string, ubicacion: string)
    | EnlaceElem(idEnlace: int, link: string, desc: string)

  /** A field value: `null`, a scalar shown as text, or an array. */
  datatype Value = Null | Scalar(text: string) | Array(elems: seq<Elem>)

  /** One accordion item of the goals block; fields a goal lacks show as
      empty text. */
  datatype MetaItem = MetaItem(header: string, descripcion: string, resultado: string,
                               observaciones: string, valoracion: string)

  /** A link of the institutions or links block. */
  datatype Link = Link(href: Option<string>, text: string)

  /** What one field renders. */
  datatype Block =
    | MetasBlock(items: seq<MetaItem>)
    | InstitucionesBlock(instituciones: seq<Link>)
    | EnlacesBlock(enlaces: seq<Link>)
    | AreasBlock(groups: Option<seq<AreaGroup>>)
    | FieldLine(etiqueta: string, text: string)

  /** The whole view: the loading message, or one output per field. */
  datatype View = Cargando | Fields(outputs: seq<Option<Block>>)

  const KnownLists: set<string> := {"listaMetas", "listaInstituciones", "listaEnlaces", "listaRelaciones"}

  /** An accordion item; an element that is not a goal has every field
      undefined, which renders as nothing. */
  function MetaItemOf(valoraciones: seq<Valoracion>, e: Elem): MetaItem {
    match e
    case MetaElem(m) =>
      MetaItem("Mostrar meta " + (if m.idMeta.Some? then IntToString(m.idMeta.value) else ""),
               m.descripcion.GetOr(""), m.resultado.GetOr(""), m.observaciones.GetOr(""),
               StringValoracion(valoraciones, m.valoracion).GetOr(""))
    case _ => MetaItem("Mostrar meta ", "", "", "", "")
  }

  function InstitucionLink(e: Elem): Link {
    match e
    case InstitucionElem(_, nom, ubicacion) => Link(Some(ubicacion), nom)
    case _ => Link(None, "")
  }

  function EnlaceLink(e: Elem): Link {
    match e
    case EnlaceElem(_, link, desc) => Link(Some(link), desc)
    case _ => Link(None, "")
  }

  /** The ids of an id list; any other element builds a key that is not
      "digits-digits" and so resolves to nothing. */
  function IdsOf(data: seq<Elem>): (ids: seq<nat>)
    ensures |ids| <= |data|
  {
    if data == [] then []
    else (if data[0].IdElem? then [data[0].id] else []) + IdsOf(data[1..])
  }

  /** `renderData(data, dataType)`: the block for a known list name, nothing
      for any other name. */
  function RenderData(index: map<string, Area>, valoraciones: seq<Valoracion>, data: seq<Elem>, dataType: string)
    : Option<Block>
  {
    if dataType == "listaMetas" then
      Some(MetasBlock(seq(|data|, i requires 0 <= i < |data| => MetaItemOf(valoraciones, data[i]))))
    else if dataType == "listaInstituciones" then
      Some(InstitucionesBlock(seq(|data|, i requires 0 <= i < |data| => InstitucionLink(data[i]))))
    else if dataType == "listaEnlaces" then
      Some(EnlacesBlock(seq(|data|, i requires 0 <= i < |data| => EnlaceLink(data[i]))))
    else if dataType == "listaRelaciones" then
      Some(AreasBlock(if |data| > 0 then Some(Present(RelacionesCandidates(index, IdsOf(data)))) else None))
    else None
  }

  /** Only the four known list names render; the goals, institutions and
      links blocks have one entry per element, in order. */
  lemma RenderDataDispatch(index: map<string, Area>, valoraciones: seq<Valoracion>, data: seq<Elem>, dataType: string)
    ensures var b := RenderData(index, valoraciones, data, dataType);
      && (b.Some? <==> dataType in KnownLists)
      && (dataType == "listaMetas" ==> b.value.MetasBlock? && |b.value.items| == |data|)
      && (dataType == "listaInstituciones" ==> b.value.InstitucionesBlock? && |b.value.instituciones| == |data|)
      && (dataType == "listaEnlaces" ==> b.value.EnlacesBlock? && |b.value.enlaces| == |data|)
      && (dataType == "listaRelaciones" ==> b.value.AreasBlock? && (b.value.groups.None? <==> |data| == 0))
  {
  }

  /** Each goal item shows the goal's texts and the name of the first rating
      whose id is the goal's rating, or nothing when there is none. */
  lemma MetaItemShowsGoal(valoraciones: seq<Valoracion>, m: Meta)
    ensures var item := MetaItemOf(valoraciones, MetaElem(m));
      && item.descripcion == m.descripcion.GetOr("")
      && item.resultado == m.resultado.GetOr("")
      && item.observaciones == m.observaciones.GetOr("")
      && (m.valoracion.None? ==> item.valoracion == "")
      && (m.valoracion.Some? ==>
            item.valoracion == FindValoracion(valoraciones, m.valoracion.value).GetOr(""))
  {
  }

  /** The areas block, for a non-empty id list, lists the groups of types 1
      to 4 in that order, under the four fixed headings; a group shows
      exactly when some id resolves under its type, is non-empty and holds
      only catalog entries of its type whose ids are in the list. */
  lemma RelacionesBlockSpec(areas: seq<Area>, valoraciones: seq<Valoracion>, data: seq<Elem>)
    requires |data| > 0
    ensures var b := RenderData(IndexOf(areas), valoraciones, data, "listaRelaciones");
      && b.Some? && b.value.AreasBlock? && b.value.groups.Some?
      && var groups := b.value.groups.value;
      && |groups| <= 4
      && (forall i, j :: 0 <= i < j < |groups| ==> groups[i].idTipoRelacion < groups[j].idTipoRelacion)
      && (forall g :: g in groups ==>
            && 1 <= g.idTipoRelacion <= 4 && g.items != []
            && g.nombre == NOMBRES_RELACIONES[g.idTipoRelacion - 1]
            && forall a :: a in g.items ==>
                 a in areas && a.idTipoRelacion == g.idTipoRelacion && a.idRelacion in IdsOf(data))
      && (ElementoResumen.HasGroup(groups, 1) <==> Resolve(IndexOf(areas), IdsOf(data), 1) != [])
      && (ElementoResumen.HasGroup(groups, 2) <==> Resolve(IndexOf(areas), IdsOf(data), 2) != [])
      && (ElementoResumen.HasGroup(groups, 3) <==> Resolve(IndexOf(areas), IdsOf(data), 3) != [])
      && (ElementoResumen.HasGroup(groups, 4) <==> Resolve(IndexOf(areas), IdsOf(data), 4) != [])
  {
    var ids := IdsOf(data);
    var xs := RelacionesCandidates(IndexOf(areas), ids);
    CandidateInOrder(areas, ids, 1, NOMBRE_INTERNAS_SECRETARIA);
    CandidateInOrder(areas, ids, 2, NOMBRE_INTERNAS_UNL);
    CandidateInOrder(areas, ids, 3, NOMBRE_UNIDADES_ACADEMICAS);
    CandidateInOrder(areas, ids, 4, NOMBRE_PROGRAMAS_EXTENSION);
    ElementoResumen.GroupsOfCandidates(areas, xs, [ids, ids, ids, ids], NOMBRES_RELACIONES);
    var groups := RenderData(IndexOf(areas), valoraciones, data, "listaRelaciones").value.groups.value;
    assert groups == Present(xs);
    assert ElementoResumen.HasGroup(groups, 1) <==> xs[0].Some?;
    assert ElementoResumen.HasGroup(groups, 2) <==> xs[1].Some?;
    assert ElementoResumen.HasGroup(groups, 3) <==> xs[2].Some?;
    assert ElementoResumen.HasGroup(groups, 4) <==> xs[3].Some?;
  }

  /** The label of a scalar field: its Spanish title when one is given and
      not empty, otherwise the field name turned into words. */
  function FieldLabel(spanishTitles: map<string, string>, name: string): (etiqueta: string)
    ensures name in spanishTitles && spanishTitles[name] != "" ==> etiqueta == spanishTitles[name]
    ensures !(name in spanishTitles && spanishTitles[name] != "") ==> etiqueta == CamelCaseToHuman(name)
  {
    if name in spanishTitles && spanishTitles[name] != "" then spanishTitles[name] else CamelCaseToHuman(name)
  }

  /** `renderValue(value, nameData)`: nothing for `null`, otherwise a line
      with the label and the value. */
  function RenderValue(spanishTitles: map<string, string>, value: Option<string>, name: string): (b: Option<Block>)
    ensures b.None? <==> value.None?
    ensures b.Some? ==> b.value == FieldLine(FieldLabel(spanishTitles, name), value.value)
  {
    if value.None? then None else Some(FieldLine(FieldLabel(spanishTitles, name), value.value))
  }

  /** The top-level walk: while loading only the loading message; otherwise
      one output per field in entry order, arrays through `renderData` and
      everything else through `renderValue`. */
  function RenderObject(loading: bool, objectData: seq<(string, Value)>, spanishTitles: map<string, string>,
                        index: map<string, Area>, valoraciones: seq<Valoracion>): View
  {
    if loading then Cargando
    else Fields(seq(|objectData|, i requires 0 <= i < |objectData| =>
      var (name, value) := objectData[i];
      match value
      case Array(elems) => RenderData(index, valoraciones, elems, name)
      case Null => RenderValue(spanishTitles, None, name)
      case Scalar(text) => RenderValue(spanishTitles, Some(text), name)))
  }

  /** Loading shows only the loading message. Otherwise there is one output
      per field, and a field renders nothing exactly when it is `null` or an
      array whose name is not one of the four known lists; an array field is
      the `renderData` block of its elements and name, and a scalar field is
      a line with its label and text. */
  lemma RenderObjectSpec(loading: bool, objectData: seq<(string, Value)>, spanishTitles: map<string, string>,
                         index: map<string, Area>, valoraciones: seq<Valoracion>)
    ensures var v := RenderObject(loading, objectData, spanishTitles, index, valoraciones);
      && (v.Cargando? <==> loading)
      && (v.Fields? ==>
        && |v.outputs| == |objectData|
        && (forall i :: 0 <= i < |objectData| ==>
              (v.outputs[i].None? <==>
                objectData[i].1.Null? || (objectData[i].1.Array? && objectData[i].0 !in KnownLists)))
        && (forall i :: 0 <= i < |objectData| && objectData[i].1.Scalar? ==>
              v.outputs[i] == Some(FieldLine(FieldLabel(spanishTitles, objectData[i].0), objectData[i].1.text)))
        && (forall i :: 0 <= i < |objectData| && objectData[i].1.Array? ==>
              v.outputs[i] == RenderData(index, valoraciones, objectData[i].1.elems, objectData[i].0)))
  {
    if !loading {
      forall i | 0 <= i < |objectData| && objectData[i].1.Array?
        ensures RenderData(index, valoraciones, objectData[i].1.elems, objectData[i].0).Some? <==>
          objectData[i].0 in KnownLists
      {
        RenderDataDispatch(index, valoraciones, objectData[i].1.elems, objectData[i].0);
      }
    }
  }
}
