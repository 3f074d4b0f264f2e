// The activity screen of an area: the list of its activities with a
// case-insensitive search, the creation of a new activity, and the menu of
// forms of the open activity, whose selection is guarded by the store's
// "unsaved changes" flag and a confirmation.

module ActivityScreen {
  import opened Common

  /** An entry of the activity list. */
  datatype Activity = Activity(idActividad: int, desc: string)

  /** The area whose activities are shown, as kept in local storage. */
  datatype AreaActual = AreaActual(idArea: int, nom: string, anio: string)

  /** The record posted to create an activity. */
  datatype NuevaActividad = NuevaActividad(
    idActividad: int,
    idArea: int,
    nro: nat,
    desc: string,
    fechaDesde: Option<string>,
    fechaHasta: Option<string>)

  // ---------------------------------------------------------------------
  // Search

  /** The search test: the description contains the query, both folded to
      lower case. */
  function Coincide(query: string): Activity -> bool {
    (a: Activity) => Contains(LowerString(a.desc), LowerString(query))
  }

  /** `onSearchChange`: the activities that match the query, in list order. */
  function Search(actividades: seq<Activity>, query: string): (r: seq<Activity>)
    ensures |r| <= |actividades|
    ensures forall a :: a in r <==>
              a in actividades && Contains(LowerString(a.desc), LowerString(query))
  {
    Filter(actividades, Coincide(query))
  }

  /** The search keeps list order: searching a list split in two gives the
      matches of the first part followed by those of the second, and a
      one-activity list keeps its activity exactly when it matches. */
  lemma SearchKeepsOrder(a: seq<Activity>, b: seq<Activity>, x: Activity, query: string)
    ensures Search(a + b, query) == Search(a, query) + Search(b, query)
    ensures Search([x], query) ==
      if Contains(LowerString(x.desc), LowerString(query)) then [x] else []
  {
    FilterAppend(a, b, Coincide(query));
    FilterOne(x, Coincide(query));
  }

  /** An empty query keeps every activity. */
  lemma SearchEmptyQuery(actividades: seq<Activity>)
    ensures Search(actividades, "") == actividades
  {
    forall i | 0 <= i < |actividades|
      ensures Coincide("")(actividades[i])
    {
      assert HasPrefix(LowerString(actividades[i].desc), LowerString(""));
    }
    FilterAll(actividades, Coincide(""));
  }

  /** The search ignores the case of the query's letters. */
  lemma SearchIgnoresCase(actividades: seq<Activity>, query: string)
    ensures Search(actividades, query) == Search(actividades, LowerString(query))
  {
    LowerStringIdempotent(query);
    FilterCongruent(actividades, Coincide(query), Coincide(LowerString(query)));
  }

  /** The list shown: the search result when it has entries, the whole list
      otherwise. It is empty only when both are, and shows nothing from
      elsewhere. */
  function Displayed(searched: seq<Activity>, actividades: seq<Activity>): (r: seq<Activity>)
    ensures r == [] <==> searched == [] && actividades == []
    ensures forall a :: a in r ==> a in searched || a in actividades
  {
    if |searched| > 0 then searched else actividades
  }

  /** A search that matches nothing shows every activity; one that matches
      shows exactly the matches. */
  lemma DisplayedSearch(actividades: seq<Activity>, query: string)
    ensures (forall a :: a in actividades ==> !Contains(LowerString(a.desc), LowerString(query)))
            ==> Displayed(Search(actividades, query), actividades) == actividades
    ensures (exists a :: a in actividades && Contains(LowerString(a.desc), LowerString(query)))
            ==> Displayed(Search(actividades, query), actividades) == Search(actividades, query)
  {
    var r := Search(actividades, query);
    if r != [] {
      assert r[0] in r;
    }
  }

  /** The record of a new activity: id 0, numbered after the activities
      listed, with no dates. */
  function NuevaActividadPara(area: AreaActual, actividades: seq<Activity>, desc: string): (r: NuevaActividad)
    ensures r.nro == |actividades| + 1 && r.idActividad == 0
    ensures r.fechaDesde.None? && r.fechaHasta.None?
    ensures r.idArea == area.idArea && r.desc == desc
  {
    NuevaActividad(0, area.idArea, |actividades| + 1, desc, None, None)
  }

  // ---------------------------------------------------------------------
  // The form menu

  /** The form chosen and the store's "unsaved changes" flag. */
  datatype Seleccion = Seleccion(current: string, hayCambios: bool)

  /** `selectCurrentForm`: with no form chosen the new one is chosen; with no
      unsaved changes the flag is cleared and the new one is chosen; with
      unsaved changes that happens only when the user confirms, and the flag
      is then cleared. Either the new form ends up chosen or nothing changes,
      the flag is never raised, and unsaved changes are dropped only on
      confirmation; choosing the first form keeps the flag as it was. */
  function SelectForm(current: string, hayCambios: bool, formName: string, confirmed: bool): (r: Seleccion)
    ensures r.current == formName || r == Seleccion(current, hayCambios)
    ensures r.hayCambios ==> hayCambios
    ensures current != "" && hayCambios && !confirmed ==> r == Seleccion(current, hayCambios)
    ensures current == "" || !hayCambios || confirmed ==> r.current == formName
    ensures current != "" ==> !r.hayCambios || r == Seleccion(current, hayCambios)
    ensures current == "" ==> r == Seleccion(formName, hayCambios)
    ensures current != "" && (!hayCambios || confirmed) ==> r == Seleccion(formName, false)
  {
    if current == "" then Seleccion(formName, hayCambios)
    else if !hayCambios then Seleccion(formName, false)
    else if confirmed then Seleccion(formName, false)
    else Seleccion(current, hayCambios)
  }

  /** The colour of a menu entry. */
  datatype Variant = Warning | Primary | Secondary

  /** The chosen entry is "warning" with unsaved changes and "primary"
      without; every other entry is "secondary". */
  function FormItemVariant(hayCambios: bool, current: string, item: string): (v: Variant)
    ensures v != Secondary <==> item == current
    ensures v == Warning <==> item == current && hayCambios
  {
    if hayCambios && current == item then Warning
    else if current == item then Primary
    else Secondary
  }

  /** The colours of the menu entries: entries other than the chosen form
      are all "secondary", so entries with distinct names highlight at most
      one. */
  lemma MenuHighlightsAtMostOne(items: seq<string>, hayCambios: bool, current: string, i: nat, j: nat)
    requires i < |items| && j < |items| && items[i] != items[j]
    ensures FormItemVariant(hayCambios, current, items[i]) == Secondary
            || FormItemVariant(hayCambios, current, items[j]) == Secondary
  {
  }

  // ---------------------------------------------------------------------
  // State

  /** The part of the activity store this screen and its panel use. */
  class ActivitySlice {
    var hayCambios: bool
    var motivoCancel: Option<string>

    constructor(hayCambios: bool, motivoCancel: Option<string>)
      ensures this.hayCambios == hayCambios && this.motivoCancel == motivoCancel
    {
      this.hayCambios := hayCambios;
      this.motivoCancel := motivoCancel;
    }
  }

  class Screen {
    const area: AreaActual
    const slice: ActivitySlice
    var arrayActivity: seq<Activity>
    var searchedActivities: seq<Activity>
    var isPlanificationOpen: bool
    var currentFormSelected: string
    var nameActivity: string
    var term: string
    var show: bool

    /** The screen as mounted: nothing loaded, nothing chosen. */
    constructor(area: AreaActual, slice: ActivitySlice)
      ensures this.area == area && this.slice == slice
      ensures arrayActivity == [] && searchedActivities == []
      ensures !isPlanificationOpen && currentFormSelected == "" && nameActivity == ""
      ensures term == "" && !show
    {
      this.area := area;
      this.slice := slice;
      arrayActivity := [];
      searchedActivities := [];
      isPlanificationOpen := false;
      currentFormSelected := "";
      nameActivity := "";
      term := "";
      show := false;
    }

    /** The effect that reruns the search with an empty query whenever the
        list or the planification toggle changes. */
    method ResetSearch()
      modifies this
      ensures searchedActivities == Search(arrayActivity, "")
      ensures arrayActivity == old(arrayActivity) && isPlanificationOpen == old(isPlanificationOpen)
      ensures currentFormSelected == old(currentFormSelected) && nameActivity == old(nameActivity)
      ensures term == old(term) && show == old(show)
    {
      searchedActivities := Search(arrayActivity, "");
    }

    /** `mostrarActividades` once the server has answered with `actividades`,
        followed by the search reset. */
    method CargarActividades(actividades: seq<Activity>)
      modifies this
      ensures arrayActivity == actividades && searchedActivities == actividades
      ensures isPlanificationOpen == old(isPlanificationOpen)
      ensures currentFormSelected == old(currentFormSelected) && nameActivity == old(nameActivity)
      ensures term == old(term) && show == old(show)
    {
      arrayActivity := actividades;
      ResetSearch();
      SearchEmptyQuery(actividades);
    }

    /** `onSearchChange` with the text of the search box. */
    method OnSearchChange(query: string)
      modifies this
      ensures searchedActivities == Search(arrayActivity, query)
      ensures arrayActivity == old(arrayActivity) && isPlanificationOpen == old(isPlanificationOpen)
      ensures currentFormSelected == old(currentFormSelected) && nameActivity == old(nameActivity)
      ensures term == old(term) && show == old(show)
    {
      searchedActivities := Search(arrayActivity, query);
    }

    /** The loaded list, the open activity's name and the create-activity
        dialog: the state the planification panel never changes. */
    function Sidebar(): (seq<Activity>, string, string, bool)
      reads this
    {
      (arrayActivity, nameActivity, term, show)
    }

    /** The list shown in the sidebar. */
    function Listado(): seq<Activity>
      reads this
    {
      Displayed(searchedActivities, arrayActivity)
    }

    /** `submitForm`: the record to post for the typed description; then the
        box is cleared and the dialog closed (posting and reloading are the
        server's part). */
    method SubmitForm() returns (data: NuevaActividad)
      modifies this
      ensures data == NuevaActividadPara(area, arrayActivity, old(term))
      ensures term == "" && !show
      ensures arrayActivity == old(arrayActivity) && searchedActivities == old(searchedActivities)
      ensures isPlanificationOpen == old(isPlanificationOpen)
      ensures currentFormSelected == old(currentFormSelected) && nameActivity == old(nameActivity)
    {
      data := NuevaActividadPara(area, arrayActivity, term);
      term := "";
      show := false;
    }

    /** `closePlanification`, followed by the search reset. */
    method ClosePlanification()
      modifies this
      ensures isPlanificationOpen == !old(isPlanificationOpen)
      ensures searchedActivities == arrayActivity
      ensures arrayActivity == old(arrayActivity)
      ensures currentFormSelected == old(currentFormSelected) && nameActivity == old(nameActivity)
      ensures term == old(term) && show == old(show)
    {
      isPlanificationOpen := !isPlanificationOpen;
      ResetSearch();
      SearchEmptyQuery(arrayActivity);
    }

    /** A click on the entry at `index` of the shown list: the planification
        toggles, the activity's description becomes the panel's title and its
        id is the one to load; then the search is reset. */
    method OpenActivity(index: nat) returns (idActividad: int)
      requires index < |Listado()|
      modifies this
      ensures idActividad == old(Listado())[index].idActividad
      ensures nameActivity == old(Listado())[index].desc
      ensures isPlanificationOpen == !old(isPlanificationOpen)
      ensures searchedActivities == arrayActivity
      ensures arrayActivity == old(arrayActivity) && currentFormSelected == old(currentFormSelected)
      ensures term == old(term) && show == old(show)
    {
      var item := Listado()[index];
      isPlanificationOpen := !isPlanificationOpen;
      nameActivity := item.desc;
      idActividad := item.idActividad;
      ResetSearch();
      SearchEmptyQuery(arrayActivity);
    }

    /** `selectCurrentForm`; `confirmed` is the user's answer to the
        "unsaved changes will be lost" question, asked only when there are
        unsaved changes and a form is already chosen. */
    method SelectCurrentForm(formName: string, confirmed: bool)
      modifies this, slice
      ensures Seleccion(currentFormSelected, slice.hayCambios)
              == SelectForm(old(currentFormSelected), old(slice.hayCambios), formName, confirmed)
      ensures slice.motivoCancel == old(slice.motivoCancel)
      ensures arrayActivity == old(arrayActivity) && searchedActivities == old(searchedActivities)
      ensures isPlanificationOpen == old(isPlanificationOpen) && nameActivity == old(nameActivity)
      ensures term == old(term) && show == old(show)
    {
      if currentFormSelected == "" {
        currentFormSelected := formName;
        return;
      }
      if !slice.hayCambios {
        slice.hayCambios := false;
        currentFormSelected := formName;
        return;
      }
      if confirmed {
        slice.hayCambios := false;
        currentFormSelected := formName;
      }
    }

    /** `cleanFormSelected`. */
    method CleanFormSelected()
      modifies this
      ensures currentFormSelected == ""
      ensures arrayActivity == old(arrayActivity) && searchedActivities == old(searchedActivities)
      ensures isPlanificationOpen == old(isPlanificationOpen) && nameActivity == old(nameActivity)
      ensures term == old(term) && show == old(show)
    {
      currentFormSelected := "";
    }
  }
}
