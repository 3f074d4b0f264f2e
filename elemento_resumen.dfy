// The activity summary card (ElementoResumen): the areas section grouped by
// relation type and sorted by name, the objectives split into strategic
// objectives and institutional plan, the goals grid and its link wrapping.

module ElementoResumen {
  import opened Common
  import opened Sorting
  import opened Catalog

  const NOMBRE_INTERNAS_SECRETARIA := "Internas Secretaria"
  const NOMBRE_OTRAS_AREAS_CENTRALES := "Otras áreas centrales"
  const NOMBRE_UNIDADES_ACADEMICAS := "Unidades Académicas involucradas"
  const NOMBRE_PROGRAMAS_EXTENSION := "Programas de Extensión"

  /** The areas section: the placeholder, or the ordered list of groups. */
  datatype AreasView = NoHayAreasCargadas | AreaList(groups: seq<AreaGroup>)

  // ---------------------------------------------------------------------
  // Grouped resolution (renderArea)

  /** The comparator `a.nom.localeCompare(b.nom)` is not positive. */
  predicate ByNom(a: Area, b: Area) {
    StringLe(a.nom, b.nom)
  }

  lemma ByNomTotalPreorder(s: seq<Area>)
    ensures TotalPreorderOn(s, ByNom)
  {
    forall a, b | a in s && b in s
      ensures ByNom(a, b) || ByNom(b, a)
    {
      StringLeTotal(a.nom, b.nom);
    }
    forall a, b, c | a in s && b in s && c in s && ByNom(a, b) && ByNom(b, c)
      ensures ByNom(a, c)
    {
      StringLeTransitive(a.nom, b.nom, c.nom);
    }
  }

  /** `renderArea(data, idTipoRelacion, nombreArea)`: nothing for an absent
      or empty id list or when no id resolves; otherwise the resolved entries
      sorted by name under the heading. */
  function RenderArea(index: map<string, Area>, data: Option<seq<nat>>, idTipoRelacion: nat, nombre: string)
    : Option<AreaGroup>
  {
    if data.None? || |data.value| == 0 then None
    else
      var items := Sort(Resolve(index, data.value, idTipoRelacion), ByNom);
      if |items| == 0 then None else Some(AreaGroup(nombre, idTipoRelacion, items))
  }

  /** A group is produced exactly when some id resolves, and it carries the
      name and type asked for. */
  lemma RenderAreaShown(index: map<string, Area>, data: Option<seq<nat>>, tipo: nat, nombre: string)
    ensures var r := RenderArea(index, data, tipo, nombre);
      && (r.None? <==> data.None? || Resolve(index, data.value, tipo) == [])
      && (r.Some? ==> r.value.nombre == nombre && r.value.idTipoRelacion == tipo)
  {
    if data.Some? {
      SortLength(Resolve(index, data.value, tipo), ByNom);
    }
  }

  /** The entries of a group are the resolved entries sorted by name: a
      permutation of them, so never more than the ids asked for. */
  lemma RenderAreaSorted(index: map<string, Area>, data: Option<seq<nat>>, tipo: nat, nombre: string)
    ensures var r := RenderArea(index, data, tipo, nombre);
      r.Some? ==>
        && SortedBy(r.value.items, ByNom)
        && multiset(r.value.items) == multiset(Resolve(index, data.value, tipo))
        && 0 < |r.value.items| <= |data.value|
  {
    if data.Some? {
      var resolved := Resolve(index, data.value, tipo);
      SortLength(resolved, ByNom);
      ByNomTotalPreorder(resolved);
      SortSorted(resolved, ByNom);
    }
  }

  /** Each entry of a group is a catalog entry of the group's type whose id
      was asked for. */
  lemma RenderAreaMembers(areas: seq<Area>, data: Option<seq<nat>>, tipo: nat, nombre: string)
    ensures var r := RenderArea(IndexOf(areas), data, tipo, nombre);
      r.Some? ==> forall a :: a in r.value.items ==>
        a in areas && a.idTipoRelacion == tipo && a.idRelacion in data.value
  {
    if data.Some? {
      var resolved := Resolve(IndexOf(areas), data.value, tipo);
      var items := Sort(resolved, ByNom);
      ResolveMembers(areas, data.value, tipo);
      forall a | a in items
        ensures a in resolved
      {
        assert a in multiset(items);
      }
    }
  }

  // ---------------------------------------------------------------------
  // The areas section

  /** The headings of the four groups, by type. */
  const NOMBRES_AREAS: seq<string> :=
    [NOMBRE_INTERNAS_SECRETARIA, NOMBRE_OTRAS_AREAS_CENTRALES, NOMBRE_UNIDADES_ACADEMICAS, NOMBRE_PROGRAMAS_EXTENSION]

  /** The id list each of the four groups is resolved from: the relation
      list for types 1 to 3, the SIPPE program list for type 4. */
  function IdLists(listaRelaciones: seq<nat>, listaProgramasSIPPE: Option<seq<nat>>): seq<seq<nat>> {
    [listaRelaciones, listaRelaciones, listaRelaciones, listaProgramasSIPPE.GetOr([])]
  }

  /** The four `renderArea` calls of the areas section, in order: types 1, 2
      and 3 from the relation list and, when the SIPPE program list is
      present, type 4 from that list. */
  function AreaCandidates(index: map<string, Area>, listaRelaciones: Option<seq<nat>>,
                          listaProgramasSIPPE: Option<seq<nat>>): seq<Option<AreaGroup>>
  {
    [RenderArea(index, listaRelaciones, 1, NOMBRE_INTERNAS_SECRETARIA),
     RenderArea(index, listaRelaciones, 2, NOMBRE_OTRAS_AREAS_CENTRALES),
     RenderArea(index, listaRelaciones, 3, NOMBRE_UNIDADES_ACADEMICAS),
     if listaProgramasSIPPE.Some? then
       RenderArea(index, listaProgramasSIPPE, 4, NOMBRE_PROGRAMAS_EXTENSION)
     else None]
  }

  /** The areas section: the placeholder unless the relation list is present
      and non-empty; otherwise the groups that resolved to something. */
  function AreasSection(index: map<string, Area>, listaRelaciones: Option<seq<nat>>,
                        listaProgramasSIPPE: Option<seq<nat>>): AreasView
  {
    if listaRelaciones.Some? && |listaRelaciones.value| > 0 then
      AreaList(Present(AreaCandidates(index, listaRelaciones, listaProgramasSIPPE)))
    else NoHayAreasCargadas
  }

  /** Present values keep the order of their positions. */
  lemma {:induction false} PresentKeepsTypeOrder(xs: seq<Option<AreaGroup>>)
    requires forall i, j :: 0 <= i < j < |xs| && xs[i].Some? && xs[j].Some? ==>
      xs[i].value.idTipoRelacion < xs[j].value.idTipoRelacion
    ensures var ys := Present(xs);
      forall i, j :: 0 <= i < j < |ys| ==> ys[i].idTipoRelacion < ys[j].idTipoRelacion
  {
    if xs != [] {
      var rest := xs[1..];
      PresentKeepsTypeOrder(rest);
      if xs[0].Some? {
        var ys := Present(xs);
        assert ys == [xs[0].value] + Present(rest);
        forall j | 0 < j < |ys|
          ensures xs[0].value.idTipoRelacion < ys[j].idTipoRelacion
        {
          assert ys[j] in Present(rest);
          assert Some(ys[j]) in rest;
          var m :| 0 <= m < |rest| && rest[m] == Some(ys[j]);
          assert xs[m + 1] == rest[m];
        }
      }
    }
  }

  /** A candidate, when present, is a non-empty group of type `tipo` under
      the heading `nombre`, holding only catalog entries of that type whose
      ids are in `ids`. */
  ghost predicate CandidateOk(areas: seq<Area>, c: Option<AreaGroup>, tipo: nat, ids: seq<nat>, nombre: string) {
    c.Some? ==>
      && c.value.idTipoRelacion == tipo && c.value.nombre == nombre && c.value.items != []
      && forall a :: a in c.value.items ==> a in areas && a.idTipoRelacion == tipo && a.idRelacion in ids
  }

  lemma CandidateOf(areas: seq<Area>, data: Option<seq<nat>>, tipo: nat, nombre: string)
    requires data.Some?
    ensures var r := RenderArea(IndexOf(areas), data, tipo, nombre);
      && CandidateOk(areas, r, tipo, data.value, nombre)
      && (r.Some? <==> Resolve(IndexOf(areas), data.value, tipo) != [])
  {
    RenderAreaShown(IndexOf(areas), data, tipo, nombre);
    RenderAreaSorted(IndexOf(areas), data, tipo, nombre);
    RenderAreaMembers(areas, data, tipo, nombre);
  }

  /** Candidate `k` is the group of type `k + 1` under its heading, made of
      entries whose ids are in its own list; for types 1 to 3 it exists
      exactly when some relation id resolves under that type, for type 4
      exactly when the SIPPE list is present and one of its ids resolves. */
  lemma CandidatesSpec(areas: seq<Area>, listaRelaciones: Option<seq<nat>>,
                       listaProgramasSIPPE: Option<seq<nat>>)
    requires listaRelaciones.Some?
    ensures var xs := AreaCandidates(IndexOf(areas), listaRelaciones, listaProgramasSIPPE);
      var ids := IdLists(listaRelaciones.value, listaProgramasSIPPE);
      && |xs| == 4
      && CandidateOk(areas, xs[0], 1, ids[0], NOMBRES_AREAS[0])
      && CandidateOk(areas, xs[1], 2, ids[1], NOMBRES_AREAS[1])
      && CandidateOk(areas, xs[2], 3, ids[2], NOMBRES_AREAS[2])
      && CandidateOk(areas, xs[3], 4, ids[3], NOMBRES_AREAS[3])
      && (xs[0].Some? <==> Resolve(IndexOf(areas), listaRelaciones.value, 1) != [])
      && (xs[1].Some? <==> Resolve(IndexOf(areas), listaRelaciones.value, 2) != [])
      && (xs[2].Some? <==> Resolve(IndexOf(areas), listaRelaciones.value, 3) != [])
      && (xs[3].Some? <==>
            listaProgramasSIPPE.Some? && Resolve(IndexOf(areas), listaProgramasSIPPE.value, 4) != [])
  {
    CandidateOf(areas, listaRelaciones, 1, NOMBRE_INTERNAS_SECRETARIA);
    CandidateOf(areas, listaRelaciones, 2, NOMBRE_OTRAS_AREAS_CENTRALES);
    CandidateOf(areas, listaRelaciones, 3, NOMBRE_UNIDADES_ACADEMICAS);
    if listaProgramasSIPPE.Some? {
      CandidateOf(areas, listaProgramasSIPPE, 4, NOMBRE_PROGRAMAS_EXTENSION);
    }
  }

  /** Some group of the list has type `t`. */
  predicate HasGroup(groups: seq<AreaGroup>, t: nat) {
    exists g :: g in groups && g.idTipoRelacion == t
  }

  /** What `Present` keeps of four candidates of types 1 to 4: at most four
      groups, in type order, each one of the candidates (so under the heading
      and from the id list of its type), and a group of type `t` exactly when
      candidate `t - 1` is present. */
  lemma GroupsOfCandidates(areas: seq<Area>, xs: seq<Option<AreaGroup>>, ids: seq<seq<nat>>, nombres: seq<string>)
    requires |xs| == 4 && |ids| == 4 && |nombres| == 4
    requires CandidateOk(areas, xs[0], 1, ids[0], nombres[0])
    requires CandidateOk(areas, xs[1], 2, ids[1], nombres[1])
    requires CandidateOk(areas, xs[2], 3, ids[2], nombres[2])
    requires CandidateOk(areas, xs[3], 4, ids[3], nombres[3])
    ensures var ys := Present(xs);
      && |ys| <= 4
      && (forall i, j :: 0 <= i < j < |ys| ==> ys[i].idTipoRelacion < ys[j].idTipoRelacion)
      && (forall g :: g in ys ==>
            && 1 <= g.idTipoRelacion <= 4
            && CandidateOk(areas, Some(g), g.idTipoRelacion, ids[g.idTipoRelacion - 1], nombres[g.idTipoRelacion - 1]))
      && (forall t :: 1 <= t <= 4 ==> (HasGroup(ys, t) <==> xs[t - 1].Some?))
  {
    var ys := Present(xs);
    assert forall k :: 0 <= k < 4 ==> CandidateOk(areas, xs[k], k + 1, ids[k], nombres[k]) by {
      forall k | 0 <= k < 4
        ensures CandidateOk(areas, xs[k], k + 1, ids[k], nombres[k])
      {
        assert k == 0 || k == 1 || k == 2 || k == 3;
      }
    }
    PresentKeepsTypeOrder(xs);
    forall g | g in ys
      ensures 1 <= g.idTipoRelacion <= 4
      ensures CandidateOk(areas, Some(g), g.idTipoRelacion, ids[g.idTipoRelacion - 1], nombres[g.idTipoRelacion - 1])
    {
      var k :| 0 <= k < |xs| && xs[k] == Some(g);
      assert CandidateOk(areas, xs[k], k + 1, ids[k], nombres[k]);
    }
    forall t | 1 <= t <= 4
      ensures HasGroup(ys, t) <==> xs[t - 1].Some?
    {
      if xs[t - 1].Some? {
        assert xs[t - 1].value in ys;
        assert CandidateOk(areas, xs[t - 1], t, ids[t - 1], nombres[t - 1]);
      }
      if HasGroup(ys, t) {
        var g :| g in ys && g.idTipoRelacion == t;
        var k :| 0 <= k < |xs| && xs[k] == Some(g);
        assert CandidateOk(areas, xs[k], k + 1, ids[k], nombres[k]);
      }
    }
  }

  /** The placeholder shows exactly when the relation list is absent or
      empty. Otherwise the groups come in the fixed type order 1, 2, 3, 4
      with no type twice; every group is non-empty, carries the heading of
      its type and holds only catalog entries of its type whose ids are in
      the list of that type (the relation list for types 1 to 3, the SIPPE
      list for type 4); each of types 1, 2 and 3 has a group exactly when
      some relation id resolves under it, and type 4 exactly when the SIPPE
      list is present and one of its ids resolves. */
  lemma AreasSectionSpec(areas: seq<Area>, listaRelaciones: Option<seq<nat>>,
                         listaProgramasSIPPE: Option<seq<nat>>)
    ensures var v := AreasSection(IndexOf(areas), listaRelaciones, listaProgramasSIPPE);
      && (v.NoHayAreasCargadas? <==> listaRelaciones.None? || |listaRelaciones.value| == 0)
      && (v.AreaList? ==>
        && |v.groups| <= 4
        && (forall i, j :: 0 <= i < j < |v.groups| ==> v.groups[i].idTipoRelacion < v.groups[j].idTipoRelacion)
        && (forall g :: g in v.groups ==>
              && 1 <= g.idTipoRelacion <= 4 && g.items != []
              && g.nombre == NOMBRES_AREAS[g.idTipoRelacion - 1]
              && forall a :: a in g.items ==>
                   && a in areas && a.idTipoRelacion == g.idTipoRelacion
                   && a.idRelacion in IdLists(listaRelaciones.value, listaProgramasSIPPE)[g.idTipoRelacion - 1])
        && (HasGroup(v.groups, 1) <==> Resolve(IndexOf(areas), listaRelaciones.value, 1) != [])
        && (HasGroup(v.groups, 2) <==> Resolve(IndexOf(areas), listaRelaciones.value, 2) != [])
        && (HasGroup(v.groups, 3) <==> Resolve(IndexOf(areas), listaRelaciones.value, 3) != [])
        && (HasGroup(v.groups, 4) <==>
              listaProgramasSIPPE.Some? && Resolve(IndexOf(areas), listaProgramasSIPPE.value, 4) != []))
  {
    if listaRelaciones.Some? && |listaRelaciones.value| > 0 {
      var xs := AreaCandidates(IndexOf(areas), listaRelaciones, listaProgramasSIPPE);
      var ids := IdLists(listaRelaciones.value, listaProgramasSIPPE);
      CandidatesSpec(areas, listaRelaciones, listaProgramasSIPPE);
      GroupsOfCandidates(areas, xs, ids, NOMBRES_AREAS);
      var groups := AreasSection(IndexOf(areas), listaRelaciones, listaProgramasSIPPE).groups;
      assert groups == Present(xs);
      assert HasGroup(groups, 1) <==> xs[0].Some?;
      assert HasGroup(groups, 2) <==> xs[1].Some?;
      assert HasGroup(groups, 3) <==> xs[2].Some?;
      assert HasGroup(groups, 4) <==> xs[3].Some?;
    }
  }

  // ---------------------------------------------------------------------
  // Objectives (renderObjetivos)

  /** A strategic objective of the catalog. */
  datatype Objetivo = Objetivo(idObjetivo: int, nom: string)

  datatype ObjetivosView =
    | NoHayObjetivosCargados
    | NoHayObjetivosFiltrados
    | Objetivos(estrategicos: seq<Objetivo>, planInstitucional: seq<Objetivo>)

  /** Objectives 1 to 4 are the strategic objectives. */
  predicate EsEstrategico(o: Objetivo) {
    o.idObjetivo <= 4
  }

  /** Objectives from 5 on belong to the institutional plan. */
  predicate EsPlanInstitucional(o: Objetivo) {
    o.idObjetivo >= 5
  }

  /** The catalog objectives whose id the activity lists, in catalog order. */
  function Seleccionados(catalogo: seq<Objetivo>, listaObjetivos: seq<int>): seq<Objetivo> {
    Filter(catalogo, Listado(listaObjetivos))
  }

  /** The filter of `objetivosFiltrados`: the activity lists the objective. */
  function Listado(listaObjetivos: seq<int>): Objetivo -> bool {
    (o: Objetivo) => o.idObjetivo in listaObjetivos
  }

  /** `renderObjetivos`: the selected objectives, strategic ones under
      "Objetivos estratégicos" and the rest under "Plan institucional". An
      absent catalog (the shared data not loaded) gives the "no filtered
      objectives" message. */
  function RenderObjetivos(listaObjetivos: Option<seq<int>>, catalogo: Option<seq<Objetivo>>): ObjetivosView {
    if listaObjetivos.None? || |listaObjetivos.value| == 0 then NoHayObjetivosCargados
    else if catalogo.None? then NoHayObjetivosFiltrados
    else
      var filtrados := Seleccionados(catalogo.value, listaObjetivos.value);
      Objetivos(Filter(filtrados, EsEstrategico), Filter(filtrados, EsPlanInstitucional))
  }

  /** Which message or sections show: the "none loaded" message exactly when
      the activity lists no objective, the sections exactly when it lists
      some and the catalog is loaded. */
  lemma RenderObjetivosCases(listaObjetivos: Option<seq<int>>, catalogo: Option<seq<Objetivo>>)
    ensures var v := RenderObjetivos(listaObjetivos, catalogo);
      && (v.NoHayObjetivosCargados? <==> listaObjetivos.None? || |listaObjetivos.value| == 0)
      && (v.NoHayObjetivosFiltrados? <==> listaObjetivos.Some? && |listaObjetivos.value| > 0 && catalogo.None?)
  {
  }

  /** Each objective shown is a catalog objective the activity lists, in the
      section its id belongs to, and each such objective is shown in exactly
      one of the two sections. */
  lemma RenderObjetivosSections(listaObjetivos: seq<int>, catalogo: seq<Objetivo>)
    requires |listaObjetivos| > 0
    ensures var v := RenderObjetivos(Some(listaObjetivos), Some(catalogo));
      && v.Objetivos?
      && (forall o :: o in v.estrategicos <==> o in catalogo && o.idObjetivo in listaObjetivos && o.idObjetivo <= 4)
      && (forall o :: o in v.planInstitucional <==> o in catalogo && o.idObjetivo in listaObjetivos && o.idObjetivo >= 5)
      && (forall o :: !(o in v.estrategicos && o in v.planInstitucional))
  {
  }

  /** The two sections together are a permutation of the selected
      objectives: nothing is lost or shown twice. */
  lemma RenderObjetivosPartition(listaObjetivos: seq<int>, catalogo: seq<Objetivo>)
    requires |listaObjetivos| > 0
    ensures var v := RenderObjetivos(Some(listaObjetivos), Some(catalogo));
      && v.Objetivos?
      && multiset(v.estrategicos) + multiset(v.planInstitucional) ==
           multiset(Seleccionados(catalogo, listaObjetivos))
  {
    var filtrados := Seleccionados(catalogo, listaObjetivos);
    FilterPartition(filtrados, EsEstrategico, EsPlanInstitucional);
  }

  /** Both sections keep catalog order: the sections of a catalog split in
      two are those of the first part followed by those of the second, and a
      one-objective catalog shows that objective in the section its id
      belongs to exactly when the activity lists it. */
  lemma RenderObjetivosKeepsOrder(listaObjetivos: seq<int>, a: seq<Objetivo>, b: seq<Objetivo>, o: Objetivo)
    requires |listaObjetivos| > 0
    ensures var va := RenderObjetivos(Some(listaObjetivos), Some(a));
      var vb := RenderObjetivos(Some(listaObjetivos), Some(b));
      var v := RenderObjetivos(Some(listaObjetivos), Some(a + b));
      && v.estrategicos == va.estrategicos + vb.estrategicos
      && v.planInstitucional == va.planInstitucional + vb.planInstitucional
    ensures var v := RenderObjetivos(Some(listaObjetivos), Some([o]));
      && v.estrategicos == (if o.idObjetivo in listaObjetivos && o.idObjetivo <= 4 then [o] else [])
      && v.planInstitucional == (if o.idObjetivo in listaObjetivos && o.idObjetivo >= 5 then [o] else [])
  {
    var sa, sb := Seleccionados(a, listaObjetivos), Seleccionados(b, listaObjetivos);
    FilterAppend(a, b, Listado(listaObjetivos));
    FilterAppend(sa, sb, EsEstrategico);
    FilterAppend(sa, sb, EsPlanInstitucional);
    FilterOne(o, Listado(listaObjetivos));
    FilterOne(o, EsEstrategico);
    FilterOne(o, EsPlanInstitucional);
  }

  // ---------------------------------------------------------------------
  // Links in goal texts (urlText)

  /** The length of the leading run of non-whitespace characters. */
  function NonWhitespaceRun(s: string): (n: nat)
    ensures n <= |s|
  {
    if s == [] || IsWhitespace(s[0]) then 0 else 1 + NonWhitespaceRun(s[1..])
  }

  /** The length of the scheme at the start of `s`: 8 for "https://", 7 for
      "http://", 0 for neither. */
  function SchemeLength(s: string): (k: nat)
    ensures k <= |s|
  {
    if |s| >= 8 && s[0] == 'h' && s[1] == 't' && s[2] == 't' && s[3] == 'p' && s[4] == 's'
       && s[5] == ':' && s[6] == '/' && s[7] == '/' then 8
    else if |s| >= 7 && s[0] == 'h' && s[1] == 't' && s[2] == 't' && s[3] == 'p'
       && s[4] == ':' && s[5] == '/' && s[6] == '/' then 7
    else 0
  }

  lemma SchemeLengthPrefix(s: string)
    ensures SchemeLength(s) == 8 <==> HasPrefix(s, "https://")
    ensures SchemeLength(s) == 7 <==> HasPrefix(s, "http://")
  {
    if |s| >= 8 && HasPrefix(s, "https://") {
      assert s[..8][4] == 's';
    }
    if |s| >= 7 && HasPrefix(s, "http://") {
      assert s[..7][4] == ':';
    }
  }

  /** The length of the match of `https?://[^\s]+` at the start of `s`, or 0
      when there is none: the scheme, then the whole non-whitespace run after
      it, which must not be empty (with "https://" followed by whitespace the
      regular expression backtracks to "http" and fails at the 's'). */
  function UrlMatchAt(s: string): (n: nat)
    ensures n <= |s|
  {
    var k := SchemeLength(s);
    if k > 0 && NonWhitespaceRun(s[k..]) > 0 then k + NonWhitespaceRun(s[k..]) else 0
  }

  /** The replacement written for a matched URL. */
  function Anchor(url: string): string {
    "<a target='_blank' href=" + url + ">\n\t\t\t\t\t" + url + "\n\t\t\t\t</a>"
  }

  /** `urlText`: the global replace of `https?://[^\s]+` by an anchor, scanning
      left to right and resuming after each match. */
  function UrlText(text: string): string
    decreases |text|
  {
    if text == [] then []
    else
      var n := UrlMatchAt(text);
      if n > 0 then Anchor(text[..n]) + UrlText(text[n..])
      else [text[0]] + UrlText(text[1..])
  }

  lemma OccursAtShift(text: string, needle: string, i: int)
    requires text != []
    ensures OccursAt(text[1..], needle, i) ==> OccursAt(text, needle, i + 1)
  {
    if OccursAt(text[1..], needle, i) {
      assert text[i + 1..i + 1 + |needle|] == text[1..][i..i + |needle|];
    }
  }

  /** Text without any "http://" or "https://" comes back unchanged. */
  lemma {:induction false} UrlTextWithoutScheme(text: string)
    requires forall i :: !OccursAt(text, "http://", i) && !OccursAt(text, "https://", i)
    ensures UrlText(text) == text
    decreases |text|
  {
    if text != [] {
      assert !OccursAt(text, "http://", 0) && !OccursAt(text, "https://", 0);
      assert UrlMatchAt(text) == 0;
      forall i
        ensures !OccursAt(text[1..], "http://", i) && !OccursAt(text[1..], "https://", i)
      {
        OccursAtShift(text, "http://", i);
        OccursAtShift(text, "https://", i);
      }
      UrlTextWithoutScheme(text[1..]);
      assert text == [text[0]] + text[1..];
    }
  }

  lemma {:induction false} NonWhitespaceRunStopsAt(a: string, c: char, b: string)
    requires IsWhitespace(c)
    ensures NonWhitespaceRun(a + [c] + b) == NonWhitespaceRun(a)
  {
    if a == [] {
      assert (a + [c] + b)[0] == c;
    } else {
      assert (a + [c] + b)[0] == a[0];
      if !IsWhitespace(a[0]) {
        assert (a + [c] + b)[1..] == a[1..] + [c] + b;
        NonWhitespaceRunStopsAt(a[1..], c, b);
      }
    }
  }

  /** A whitespace character ends any scheme that has not been completed. */
  lemma SchemeStopsAt(a: string, c: char, b: string)
    requires IsWhitespace(c)
    ensures SchemeLength(a + [c] + b) == SchemeLength(a)
  {
    var s := a + [c] + b;
    assert s[|a|] == c;
    assert forall i :: 0 <= i < |a| ==> s[i] == a[i];
  }

  /** A match never reaches past a whitespace character. */
  lemma {:induction false} UrlMatchStopsAt(a: string, c: char, b: string)
    requires IsWhitespace(c)
    ensures UrlMatchAt(a + [c] + b) == UrlMatchAt(a)
  {
    var s := a + [c] + b;
    SchemeStopsAt(a, c, b);
    var k := SchemeLength(a);
    assert s[k..] == a[k..] + [c] + b;
    NonWhitespaceRunStopsAt(a[k..], c, b);
  }

  lemma {:induction false} UrlTextStepMatch(t: string)
    requires t != [] && UrlMatchAt(t) > 0
    ensures UrlText(t) == Anchor(t[..UrlMatchAt(t)]) + UrlText(t[UrlMatchAt(t)..])
  {
  }

  lemma {:induction false} UrlTextStepPlain(t: string)
    requires t != [] && UrlMatchAt(t) == 0
    ensures UrlText(t) == [t[0]] + UrlText(t[1..])
  {
  }

  /** Regrouping of the pieces of the two sides of `UrlTextAcrossWhitespace`. */
  lemma Regroup(whole: string, head: string, tail: string, c: char, right: string, left: string)
    requires whole == head + (tail + [c] + right) && left == head + tail
    ensures whole == left + [c] + right
  {
  }

  /** One step of `UrlTextAcrossWhitespace` where `a` starts with a link. */
  lemma {:induction false} AcrossWhitespaceMatch(a: string, c: char, b: string)
    requires IsWhitespace(c) && a != [] && UrlMatchAt(a) > 0
    requires UrlText(a[UrlMatchAt(a)..] + [c] + b) == UrlText(a[UrlMatchAt(a)..]) + [c] + UrlText(b)
    ensures UrlText(a + [c] + b) == UrlText(a) + [c] + UrlText(b)
  {
    var s := a + [c] + b;
    UrlMatchStopsAt(a, c, b);
    var n := UrlMatchAt(a);
    assert s[..n] == a[..n];
    assert s[n..] == a[n..] + [c] + b;
    UrlTextStepMatch(s);
    UrlTextStepMatch(a);
    Regroup(UrlText(s), Anchor(a[..n]), UrlText(a[n..]), c, UrlText(b), UrlText(a));
  }

  /** One step of `UrlTextAcrossWhitespace` where `a` starts with plain text. */
  lemma {:induction false} AcrossWhitespacePlain(a: string, c: char, b: string)
    requires IsWhitespace(c) && a != [] && UrlMatchAt(a) == 0
    requires UrlText(a[1..] + [c] + b) == UrlText(a[1..]) + [c] + UrlText(b)
    ensures UrlText(a + [c] + b) == UrlText(a) + [c] + UrlText(b)
  {
    UrlMatchStopsAt(a, c, b);
    StepPlainBefore(a, c, b);
    UrlTextStepPlain(a);
    Regroup(UrlText(a + [c] + b), [a[0]], UrlText(a[1..]), c, UrlText(b), UrlText(a));
  }

  lemma {:induction false} StepPlainBefore(a: string, c: char, b: string)
    requires a != [] && UrlMatchAt(a + [c] + b) == 0
    ensures UrlText(a + [c] + b) == [a[0]] + UrlText(a[1..] + [c] + b)
  {
    var s := a + [c] + b;
    UrlTextStepPlain(s);
    assert s[0] == a[0];
    assert s[1..] == a[1..] + [c] + b;
  }

  /** `UrlTextAcrossWhitespace` for an empty `a`: the whitespace is copied. */
  lemma {:induction false} AcrossWhitespaceEmpty(a: string, c: char, b: string)
    requires IsWhitespace(c) && a == []
    ensures UrlText(a + [c] + b) == UrlText(a) + [c] + UrlText(b)
  {
    var s := a + [c] + b;
    UrlMatchStopsAt(a, c, b);
    UrlTextStepPlain(s);
    assert s[0] == c && s[1..] == b;
  }

  /** The replacement works word by word: splitting the text at a whitespace
      character and converting the two sides separately gives the same
      result, and the whitespace is kept. */
  lemma {:induction false} UrlTextAcrossWhitespace(a: string, c: char, b: string)
    requires IsWhitespace(c)
    ensures UrlText(a + [c] + b) == UrlText(a) + [c] + UrlText(b)
    decreases |a|
  {
    if a == [] {
      AcrossWhitespaceEmpty(a, c, b);
    } else if UrlMatchAt(a) > 0 {
      UrlTextAcrossWhitespace(a[UrlMatchAt(a)..], c, b);
      AcrossWhitespaceMatch(a, c, b);
    } else {
      UrlTextAcrossWhitespace(a[1..], c, b);
      AcrossWhitespacePlain(a, c, b);
    }
  }

  /** In a whitespace-free word the run from position `k` reaches the end. */
  lemma {:induction false} NonWhitespaceRunOfWord(w: string, k: nat)
    requires forall i :: 0 <= i < |w| ==> !IsWhitespace(w[i])
    requires k <= |w|
    ensures NonWhitespaceRun(w[k..]) == |w| - k
    decreases |w| - k
  {
    if k < |w| {
      NonWhitespaceRunOfWord(w, k + 1);
      assert w[k..][0] == w[k];
      assert w[k..][1..] == w[k + 1..];
    }
  }

  lemma WholeWordAfterScheme(w: string)
    requires forall i :: 0 <= i < |w| ==> !IsWhitespace(w[i])
    requires 0 < SchemeLength(w) < |w|
    ensures UrlText(w) == Anchor(w)
  {
    NonWhitespaceRunOfWord(w, SchemeLength(w));
    assert UrlMatchAt(w) == |w|;
    UrlTextStepMatch(w);
    assert w[..|w|] == w;
  }

  /** A whitespace-free word that starts with "http://" or "https://" and
      continues after it is wrapped whole in one anchor. */
  lemma UrlTextWholeWord(w: string)
    requires forall i :: 0 <= i < |w| ==> !IsWhitespace(w[i])
    requires (HasPrefix(w, "https://") && |w| > 8) || (HasPrefix(w, "http://") && |w| > 7)
    ensures UrlText(w) == Anchor(w)
  {
    SchemeLengthPrefix(w);
    WholeWordAfterScheme(w);
  }

  // ---------------------------------------------------------------------
  // Goals grid

  /** One row of the goals grid: three texts with links wrapped, and the
      rating column. */
  datatype MetaRow = MetaRow(descripcion: string, resultado: string, observaciones: string, valoracion: string)

  datatype MetasView = NoHayMetasCargadas | MetaRows(rows: seq<MetaRow>)

  const SIN_VALORACION := "No hay valoración cargada"

  function RenderMeta(meta: Meta): MetaRow {
    MetaRow(
      UrlText(meta.descripcion.GetOr("")),
      UrlText(meta.resultado.GetOr("")),
      UrlText(meta.observaciones.GetOr("")),
      if meta.valoracion.Some? then IntToString(meta.valoracion.value) else SIN_VALORACION)
  }

  /** The goals grid: the placeholder for an absent or empty list, otherwise
      one row per goal in list order. */
  function MetasSection(listaMetas: Option<seq<Meta>>): (v: MetasView)
    ensures v.NoHayMetasCargadas? <==> listaMetas.None? || |listaMetas.value| == 0
    ensures v.MetaRows? ==>
      && |v.rows| == |listaMetas.value|
      && forall i :: 0 <= i < |v.rows| ==> v.rows[i] == RenderMeta(listaMetas.value[i])
  {
    if listaMetas.Some? && |listaMetas.value| > 0 then
      MetaRows(seq(|listaMetas.value|, i requires 0 <= i < |listaMetas.value| => RenderMeta(listaMetas.value[i])))
    else NoHayMetasCargadas
  }
}
