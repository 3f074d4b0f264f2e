// The planification panel of an open activity: which form is open, the
// back arrow and the "leave the section?" dialog, the choice of the form
// component from its type name, which of the suspend/delete buttons are
// offered, and the check on the suspension reason.

module PlanificationPanel {
  import opened Common
  import opened ActivityScreen

  // ---------------------------------------------------------------------
  // Form types

  /** The eight forms of an activity. */
  datatype FormKind =
    | Descripcion | Documentacion | Pie | AreaSecretaria
    | Periodo | Objetivo | Organizacion | Metas

  /** `FORM_TYPES`: the name of each form. */
  function FormTypeName(k: FormKind): string {
    match k
    case Descripcion => "descr"
    case Documentacion => "documentacion"
    case Pie => "pie"
    case AreaSecretaria => "area"
    case Periodo => "periodo"
    case Objetivo => "objetivo"
    case Organizacion => "organi"
    case Metas => "metas"
  }

  /** The `switch (indexForm)` that picks the form component; any other name
      shows nothing. */
  function FormFor(indexForm: string): (r: Option<FormKind>)
    ensures r.Some? ==> FormTypeName(r.value) == indexForm
  {
    if indexForm == "descr" then Some(Descripcion)
    else if indexForm == "documentacion" then Some(Documentacion)
    else if indexForm == "pie" then Some(Pie)
    else if indexForm == "area" then Some(AreaSecretaria)
    else if indexForm == "periodo" then Some(Periodo)
    else if indexForm == "objetivo" then Some(Objetivo)
    else if indexForm == "organi" then Some(Organizacion)
    else if indexForm == "metas" then Some(Metas)
    else None
  }

  /** Each form type's name selects that form, so the eight names are
      distinct and each selects exactly one form. */
  lemma FormForName(k: FormKind)
    ensures FormFor(FormTypeName(k)) == Some(k)
  {
    match k
    case Descripcion =>
    case Documentacion =>
      assert "documentacion" != "descr" by { assert "documentacion"[1] != "descr"[1]; }
    case Pie =>
    case AreaSecretaria =>
    case Periodo =>
    case Objetivo =>
    case Organizacion =>
    case Metas =>
  }

  /** A name shows a form exactly when it is the name of a form type. */
  lemma FormForOnlyNames(indexForm: string)
    ensures FormFor(indexForm).Some? <==> exists k :: FormTypeName(k) == indexForm
  {
    if exists k :: FormTypeName(k) == indexForm {
      var k :| FormTypeName(k) == indexForm;
      FormForName(k);
    }
  }

  // ---------------------------------------------------------------------
  // Buttons and the suspension reason

  /** Which of the activity buttons are offered. */
  datatype Botones = Botones(suspendida: bool, suspenderEliminar: bool)

  /** "Actividad Suspendida" shows when no form is chosen and the activity
      has a cancellation reason; "Suspender"/"Eliminar" show when no form is
      open, the activity has no cancellation reason and the user may edit.
      The two are never offered together. */
  function BotonesVisibles(indexForm: string, isFormOpen: bool, motivoCancel: Option<string>, puedeEditar: bool): (b: Botones)
    ensures !(b.suspendida && b.suspenderEliminar)
    ensures b.suspendida ==> motivoCancel.Some? && indexForm == ""
    ensures b.suspenderEliminar ==> motivoCancel.None? && puedeEditar && !isFormOpen
    ensures indexForm == "" && !isFormOpen ==>
              b.suspendida || b.suspenderEliminar || (motivoCancel.None? && !puedeEditar)
  {
    Botones(indexForm == "" && motivoCancel.Some?, !isFormOpen && motivoCancel.None? && puedeEditar)
  }

  const MOTIVO_REQUERIDO := "Debe ingresar un motivo"

  /** The input check of the suspension dialog: an empty reason is refused
      with a message, any other is accepted. */
  function SuspensionValidator(value: string): (r: Option<string>)
    ensures r.Some? <==> value == []
    ensures r.Some? ==> r.value == MOTIVO_REQUERIDO
  {
    if value == [] then Some(MOTIVO_REQUERIDO) else None
  }

  // ---------------------------------------------------------------------
  // State

  class Panel {
    const screen: Screen
    var isFormOpen: bool
    var indexForm: string
    var showModal: bool

    /** A form is open exactly when the screen has one chosen, and it is the
        chosen one (the selection effect keeps them together). */
    ghost predicate Valid()
      reads this, screen
    {
      (isFormOpen <==> screen.currentFormSelected != "")
      && indexForm == screen.currentFormSelected
    }

    /** The panel as mounted, with the selection effect run once. */
    constructor(screen: Screen)
      ensures this.screen == screen
      ensures Valid()
      ensures !showModal
      ensures indexForm == screen.currentFormSelected
    {
      this.screen := screen;
      if screen.currentFormSelected != "" {
        isFormOpen := true;
        indexForm := screen.currentFormSelected;
      } else {
        isFormOpen := false;
        indexForm := "";
      }
      showModal := false;
    }

    /** `handleFormChange`. */
    method HandleFormChange(formType: string)
      modifies this
      ensures indexForm == formType && isFormOpen
      ensures showModal == old(showModal)
    {
      indexForm := formType;
      isFormOpen := true;
    }

    /** The effect on the screen's chosen form: a non-empty choice opens that
        form. */
    method SyncSelection()
      modifies this
      ensures screen.currentFormSelected != "" ==>
                indexForm == screen.currentFormSelected && isFormOpen
      ensures screen.currentFormSelected == "" ==>
                indexForm == old(indexForm) && isFormOpen == old(isFormOpen)
      ensures showModal == old(showModal)
    {
      if screen.currentFormSelected != "" {
        HandleFormChange(screen.currentFormSelected);
      }
    }

    /** A click on a form of the menu: the screen's guarded selection, then
        the selection effect. */
    method SelectFromMenu(formName: string, confirmed: bool)
      requires Valid() && formName != ""
      modifies this, screen, screen.slice
      ensures Valid()
      ensures Seleccion(screen.currentFormSelected, screen.slice.hayCambios)
              == SelectForm(old(screen.currentFormSelected), old(screen.slice.hayCambios), formName, confirmed)
      ensures showModal == old(showModal)
      ensures screen.isPlanificationOpen == old(screen.isPlanificationOpen)
      ensures screen.Sidebar() == old(screen.Sidebar())
      ensures screen.searchedActivities == old(screen.searchedActivities)
      ensures screen.slice.motivoCancel == old(screen.slice.motivoCancel)
    {
      screen.SelectCurrentForm(formName, confirmed);
      SyncSelection();
    }

    /** The back arrow: with unsaved changes it only opens the dialog;
        otherwise an open form is closed and the screen's choice cleared, or,
        with no form open, the planification is closed and the search reset.
        The sidebar and the store are never touched. */
    method BackArrow()
      requires Valid()
      modifies this, screen
      ensures Valid()
      ensures old(screen.slice.hayCambios) ==>
                showModal && isFormOpen == old(isFormOpen) && indexForm == old(indexForm)
                && screen.currentFormSelected == old(screen.currentFormSelected)
                && screen.isPlanificationOpen == old(screen.isPlanificationOpen)
      ensures !old(screen.slice.hayCambios) && old(isFormOpen) ==>
                !isFormOpen && indexForm == "" && screen.currentFormSelected == ""
                && showModal == old(showModal)
                && screen.isPlanificationOpen == old(screen.isPlanificationOpen)
      ensures !old(screen.slice.hayCambios) && !old(isFormOpen) ==>
                screen.isPlanificationOpen == !old(screen.isPlanificationOpen)
                && screen.searchedActivities == screen.arrayActivity
                && isFormOpen == old(isFormOpen) && indexForm == old(indexForm)
                && screen.currentFormSelected == old(screen.currentFormSelected)
                && showModal == old(showModal)
      ensures old(screen.slice.hayCambios) || old(isFormOpen) ==>
                screen.searchedActivities == old(screen.searchedActivities)
      ensures screen.Sidebar() == old(screen.Sidebar())
      ensures screen.slice.hayCambios == old(screen.slice.hayCambios)
      ensures screen.slice.motivoCancel == old(screen.slice.motivoCancel)
    {
      if screen.slice.hayCambios {
        showModal := true;
      } else if isFormOpen {
        isFormOpen := false;
        indexForm := "";
        screen.CleanFormSelected();
      } else {
        screen.ClosePlanification();
      }
    }

    /** "Cancelar" in the dialog. */
    method ModalCancel()
      requires Valid()
      modifies this
      ensures Valid()
      ensures !showModal && isFormOpen == old(isFormOpen) && indexForm == old(indexForm)
    {
      showModal := false;
    }

    /** "Salir" in the dialog: with a form open the dialog and the form close,
        the screen's choice is cleared and the unsaved changes are dropped;
        otherwise the planification closes with the dialog and the search is
        reset. The sidebar and the cancellation reason are never touched. */
    method ModalSalir()
      requires Valid()
      modifies this, screen, screen.slice
      ensures Valid()
      ensures !showModal
      ensures old(isFormOpen) ==>
                !isFormOpen && indexForm == "" && screen.currentFormSelected == ""
                && !screen.slice.hayCambios
                && screen.isPlanificationOpen == old(screen.isPlanificationOpen)
      ensures old(isFormOpen) ==> screen.searchedActivities == old(screen.searchedActivities)
      ensures !old(isFormOpen) ==>
                screen.isPlanificationOpen == !old(screen.isPlanificationOpen)
                && screen.searchedActivities == screen.arrayActivity
                && isFormOpen == old(isFormOpen) && indexForm == old(indexForm)
                && screen.currentFormSelected == old(screen.currentFormSelected)
                && screen.slice.hayCambios == old(screen.slice.hayCambios)
      ensures screen.Sidebar() == old(screen.Sidebar())
      ensures screen.slice.motivoCancel == old(screen.slice.motivoCancel)
    {
      if isFormOpen {
        showModal := false;
        isFormOpen := false;
        indexForm := "";
        screen.CleanFormSelected();
        screen.slice.hayCambios := false;
      } else {
        screen.ClosePlanification();
        showModal := false;
      }
    }
  }
}
