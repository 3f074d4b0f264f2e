// The goals form of an activity: a table of goals (metas) with a modal
// dialog that edits a draft goal, which is then either appended to the list
// or written back at the position it was taken from; goals can be deleted
// by position; long texts are cut short in the table.

module FormMetas {
  import opened Common
  import opened Catalog

  /** `defaultNuevaMeta`: id 0, empty texts, no rating. */
  const DEFAULT_NUEVA_META := Meta(Some(0), Some(""), Some(""), Some(""), None)

  /** The draft position that means "a new goal". */
  const NUEVA := -1

  /** Characters of the description shown in the table. */
  const CORTE_DESCRIPCION := 10
  /** Characters of the result and of the remarks shown in the table. */
  const CORTE_TEXTO := 30
  /** Longest result or remarks text the dialog accepts without marking it. */
  const LIMITE_TEXTO := 500

  // ---------------------------------------------------------------------
  // The list operations

  /** `guardarBotonModal` on the list: position -1 appends the draft after
      the goals, which stay as they were; any other position keeps the
      length, holds the draft afterwards and no other position changes. */
  function Saved(lista: seq<Meta>, index: int, draft: Meta): (r: seq<Meta>)
    requires index == NUEVA || 0 <= index < |lista|
    ensures index == NUEVA ==> |r| == |lista| + 1 && r[..|lista|] == lista && r[|lista|] == draft
    ensures index != NUEVA ==>
              |r| == |lista| && r[index] == draft
              && forall j :: 0 <= j < |lista| && j != index ==> r[j] == lista[j]
  {
    if index == NUEVA then lista + [draft] else lista[index := draft]
  }

  /** `eliminarMeta`: `splice(index, 1)` removes exactly the goal at the
      position and keeps the others in order. */
  function Removed(lista: seq<Meta>, index: nat): (r: seq<Meta>)
    requires index < |lista|
    ensures |r| == |lista| - 1
    ensures forall j :: 0 <= j < index ==> r[j] == lista[j]
    ensures forall j :: index <= j < |lista| - 1 ==> r[j] == lista[j + 1]
    ensures multiset(r) + multiset{lista[index]} == multiset(lista)
  {
    assert lista == lista[..index] + [lista[index]] + lista[index + 1..];
    lista[..index] + lista[index + 1..]
  }

  /** Opening a goal for editing and saving it untouched leaves the list as
      it was. */
  lemma EditUntouched(lista: seq<Meta>, index: nat)
    requires index < |lista|
    ensures Saved(lista, index, lista[index]) == lista
  {
  }

  /** Saving the original goal back at its position undoes an edit. */
  lemma EditThenRestore(lista: seq<Meta>, index: nat, draft: Meta)
    requires index < |lista|
    ensures Saved(Saved(lista, index, draft), index, lista[index]) == lista
  {
  }

  /** Deleting a goal just added gives the list back. */
  lemma RemoveSavedNew(lista: seq<Meta>, draft: Meta)
    ensures Removed(Saved(lista, NUEVA, draft), |lista|) == lista
  {
    assert (lista + [draft])[..|lista|] == lista;
  }

  // ---------------------------------------------------------------------
  // Text limits and the table

  /** `textLimitError`: the text is longer than the limit. */
  predicate TextLimitError(text: string, limit: nat) {
    |text| > limit
  }

  /** `limitTextString`: `text.substring(0, limit)`, the prefix of length
      min(|text|, limit); it is the whole text exactly when the text is
      within the limit. */
  function LimitTextString(text: string, limit: nat): (r: string)
    ensures |r| == (if |text| < limit then |text| else limit)
    ensures r == text[..|r|]
    ensures r == text <==> !TextLimitError(text, limit)
    ensures |r| <= limit
  {
    if |text| <= limit then text else text[..limit]
  }

  /** A row of the goals table. */
  datatype FilaMeta = FilaMeta(
    numero: nat,
    descripcion: string,
    resultado: string,
    observaciones: string,
    valoracion: Option<string>)

  /** The row of goal `meta` at position `index`: its number from 1, the cut
      texts (null read as empty) and the name of its rating (null read as 0). */
  function Fila(meta: Meta, index: nat, valoraciones: seq<Valoracion>): FilaMeta {
    FilaMeta(
      index + 1,
      LimitTextString(meta.descripcion.GetOr(""), CORTE_DESCRIPCION),
      LimitTextString(meta.resultado.GetOr(""), CORTE_TEXTO),
      LimitTextString(meta.observaciones.GetOr(""), CORTE_TEXTO),
      FindValoracion(valoraciones, meta.valoracion.GetOr(0)))
  }

  /** The table body: one row per goal, in list order. */
  function Tabla(lista: seq<Meta>, valoraciones: seq<Valoracion>): (filas: seq<FilaMeta>)
    ensures |filas| == |lista|
  {
    seq(|lista|, i requires 0 <= i < |lista| => Fila(lista[i], i, valoraciones))
  }

  /** Each row is numbered from 1, shows the goal's description cut to 10
      characters and its other texts cut to 30 (null read as empty), and names a rating exactly when
      some rating has the goal's rating id (0 for none), the first such. */
  lemma TablaSpec(lista: seq<Meta>, valoraciones: seq<Valoracion>, i: nat)
    requires i < |lista|
    ensures var fila := Tabla(lista, valoraciones)[i];
            fila.numero == i + 1
            && fila.descripcion == LimitTextString(lista[i].descripcion.GetOr(""), CORTE_DESCRIPCION)
            && fila.resultado == LimitTextString(lista[i].resultado.GetOr(""), CORTE_TEXTO)
            && fila.observaciones == LimitTextString(lista[i].observaciones.GetOr(""), CORTE_TEXTO)
            && |fila.descripcion| <= CORTE_DESCRIPCION
            && |fila.resultado| <= CORTE_TEXTO
            && |fila.observaciones| <= CORTE_TEXTO
            && (fila.valoracion.None? <==>
                  forall j :: 0 <= j < |valoraciones| ==>
                    valoraciones[j].idValoracion != lista[i].valoracion.GetOr(0))
            && (fila.valoracion.Some? ==>
                  exists j :: 0 <= j < |valoraciones|
                    && valoraciones[j].idValoracion == lista[i].valoracion.GetOr(0)
                    && fila.valoracion.value == valoraciones[j].nom
                    && forall k :: 0 <= k < j ==> valoraciones[k].idValoracion != lista[i].valoracion.GetOr(0))
  {
    FindValoracionFirstMatch(valoraciones, lista[i].valoracion.GetOr(0));
  }

  // ---------------------------------------------------------------------
  // The form's state

  class MetasForm {
    var listadoMetas: seq<Meta>
    var nuevaMeta: Meta
    var valoraciones: seq<Valoracion>
    var showModal: bool
    var indexCurrentMeta: int

    /** While the dialog is open its draft position is -1 or a position of
        the list (the dialog is opened only by the add and edit buttons, and
        it blocks the table while open). */
    ghost predicate Valid()
      reads this
    {
      indexCurrentMeta >= NUEVA
      && (showModal ==> indexCurrentMeta == NUEVA || indexCurrentMeta < |listadoMetas|)
    }

    /** A fresh form: no goals, the default draft, the dialog closed; the
        ratings are those fetched from the server. */
    constructor(valoraciones: seq<Valoracion>)
      ensures Valid()
      ensures listadoMetas == [] && nuevaMeta == DEFAULT_NUEVA_META
      ensures this.valoraciones == valoraciones
      ensures !showModal && indexCurrentMeta == NUEVA
    {
      listadoMetas := [];
      nuevaMeta := DEFAULT_NUEVA_META;
      this.valoraciones := valoraciones;
      showModal := false;
      indexCurrentMeta := NUEVA;
    }

    /** `botonAgregarMeta`: a new default draft in the open dialog. */
    method BotonAgregarMeta()
      requires Valid()
      modifies this
      ensures Valid()
      ensures indexCurrentMeta == NUEVA && nuevaMeta == DEFAULT_NUEVA_META && showModal
      ensures listadoMetas == old(listadoMetas) && valoraciones == old(valoraciones)
    {
      indexCurrentMeta := NUEVA;
      nuevaMeta := DEFAULT_NUEVA_META;
      showModal := true;
    }

    /** `editarMeta`: the goal at `index` becomes the draft in the open
        dialog. */
    method EditarMeta(index: nat)
      requires Valid() && index < |listadoMetas|
      modifies this
      ensures Valid()
      ensures listadoMetas == old(listadoMetas) && valoraciones == old(valoraciones)
      ensures indexCurrentMeta == index && nuevaMeta == listadoMetas[index] && showModal
    {
      indexCurrentMeta := index;
      nuevaMeta := listadoMetas[index];
      showModal := true;
    }

    /** `guardarBotonModal`: the draft is appended or written back, and the
        dialog closes. */
    method GuardarBotonModal()
      requires Valid() && showModal
      modifies this
      ensures Valid()
      ensures listadoMetas == Saved(old(listadoMetas), old(indexCurrentMeta), old(nuevaMeta))
      ensures !showModal
      ensures nuevaMeta == old(nuevaMeta) && indexCurrentMeta == old(indexCurrentMeta)
      ensures valoraciones == old(valoraciones)
    {
      if indexCurrentMeta == NUEVA {
        listadoMetas := listadoMetas + [nuevaMeta];
      } else {
        listadoMetas := listadoMetas[indexCurrentMeta := nuevaMeta];
      }
      showModal := false;
    }

    /** `closeModal` (the Cancel button): the list is left alone. */
    method CloseModal()
      requires Valid()
      modifies this
      ensures Valid()
      ensures !showModal
      ensures listadoMetas == old(listadoMetas) && nuevaMeta == old(nuevaMeta)
      ensures indexCurrentMeta == old(indexCurrentMeta) && valoraciones == old(valoraciones)
    {
      showModal := false;
    }

    /** `eliminarMeta`, from the table while the dialog is closed. */
    method EliminarMeta(index: nat)
      requires Valid() && !showModal && index < |listadoMetas|
      modifies this
      ensures Valid()
      ensures listadoMetas == Removed(old(listadoMetas), index)
      ensures showModal == old(showModal) && nuevaMeta == old(nuevaMeta)
      ensures indexCurrentMeta == old(indexCurrentMeta) && valoraciones == old(valoraciones)
    {
      listadoMetas := listadoMetas[..index] + listadoMetas[index + 1..];
    }

    /** The description box of the dialog. */
    method SetDescripcion(value: string)
      requires Valid()
      modifies this
      ensures Valid()
      ensures nuevaMeta == old(nuevaMeta).(descripcion := Some(value))
      ensures listadoMetas == old(listadoMetas) && showModal == old(showModal)
      ensures indexCurrentMeta == old(indexCurrentMeta) && valoraciones == old(valoraciones)
    {
      nuevaMeta := nuevaMeta.(descripcion := Some(value));
    }

    /** The result box of the dialog. */
    method SetResultado(value: string)
      requires Valid()
      modifies this
      ensures Valid()
      ensures nuevaMeta == old(nuevaMeta).(resultado := Some(value))
      ensures listadoMetas == old(listadoMetas) && showModal == old(showModal)
      ensures indexCurrentMeta == old(indexCurrentMeta) && valoraciones == old(valoraciones)
    {
      nuevaMeta := nuevaMeta.(resultado := Some(value));
    }

    /** The remarks box of the dialog. */
    method SetObservaciones(value: string)
      requires Valid()
      modifies this
      ensures Valid()
      ensures nuevaMeta == old(nuevaMeta).(observaciones := Some(value))
      ensures listadoMetas == old(listadoMetas) && showModal == old(showModal)
      ensures indexCurrentMeta == old(indexCurrentMeta) && valoraciones == old(valoraciones)
    {
      nuevaMeta := nuevaMeta.(observaciones := Some(value));
    }

    /** The rating select of the dialog (its value read as an integer). */
    method SetValoracion(value: int)
      requires Valid()
      modifies this
      ensures Valid()
      ensures nuevaMeta == old(nuevaMeta).(valoracion := Some(value))
      ensures listadoMetas == old(listadoMetas) && showModal == old(showModal)
      ensures indexCurrentMeta == old(indexCurrentMeta) && valoraciones == old(valoraciones)
    {
      nuevaMeta := nuevaMeta.(valoracion := Some(value));
    }

    /** The result box (and its counter) is marked exactly when the text
        would not survive a cut at the limit. */
    predicate ResultadoInvalido()
      reads this
      ensures ResultadoInvalido() <==>
        LimitTextString(nuevaMeta.resultado.GetOr(""), LIMITE_TEXTO) != nuevaMeta.resultado.GetOr("")
    {
      TextLimitError(nuevaMeta.resultado.GetOr(""), LIMITE_TEXTO)
    }

    /** The remarks box (and its counter) is marked exactly when the text
        would not survive a cut at the limit. */
    predicate ObservacionesInvalidas()
      reads this
      ensures ObservacionesInvalidas() <==>
        LimitTextString(nuevaMeta.observaciones.GetOr(""), LIMITE_TEXTO) != nuevaMeta.observaciones.GetOr("")
    {
      TextLimitError(nuevaMeta.observaciones.GetOr(""), LIMITE_TEXTO)
    }
  }
}
