# Extension planning front end — a Dafny model

This project models the client-side logic of the extension-activity planning front end (ljmdzst-extension/extension-front). The core covers:

- **Activity summary card.** Areas are looked up by relation id and relation type, grouped and sorted by name. Objectives are split into "Objetivos estratégicos" and "Plan institucional". Links in goal texts are wrapped in anchors (`ElementoResumen`).
- **Generic record view.** Field labels come from camel-case names, ratings from their ids. Array fields are dispatched by name (`DataRender`).
- **Period form.** Range ends are held both as days and as `YYYY-MM-DD` strings. The list of single dates is kept in date order. There is a range check and a highlighted-day list (`FormPeriodo`).
- **Goals form.** A table of goals with an add/edit dialog on a draft, deletion by position and shortened texts (`FormMetas`).
- **Activity screen.** Case-insensitive activity search, the record for a new activity, and a form menu guarded by the "unsaved changes" flag and a confirmation (`ActivityScreen`).
- **Planification panel.** The open form, the back arrow and the "leave the section?" dialog. The form is chosen from its type name. The panel also decides which suspend/delete buttons are offered and checks the suspension reason (`PlanificationPanel`).
- **Programs panel.** The year list, the program and area selection, and the record and route of an opened area (`PanelProgramas`).

How React is modelled:

- Each component's `useState` variables are fields of a Dafny class, and each handler is a method on that class.
- Each method's postcondition gives the new state as a function of the old state. Properties of those functions are proved as lemmas.
- An effect that a state change triggers (`useEffect`) is an explicit method, called at the end of the handler that triggers it. For example, `ValidarRango` runs after `SelectStartDate`.
- A confirmation dialog becomes a `bool` parameter.
- Data fetched from the server is an input.
- The Redux flag `hayCambios` and the activity's `motivoCancel` are fields of `ActivityScreen.ActivitySlice`.

Shared modules:

- `Common` provides options, filtering, decimal numerals, string order, split/join and ASCII case folding.
- `Sorting` is a stable insertion sort, the model of `Array.prototype.sort`.
- `Catalog` holds the area index shared by both summary views. The index is built with the key `"idRelacion-idTipoRelacion"`, and the later entry wins when two entries share a key. It also holds the rating lookup.

Notes on the model:

- The summary card sorts area names with `localeCompare`; the model uses code-unit order (`Common.StringLe`).
- The period form sorts dates by `new Date(..).getTime()`. The model compares the date strings in code-unit order instead. `FormPeriodo.FechaLeIsDayOrder` proves that on strings written by `dateToString` with four-digit years, this comparison is exactly chronological order.
- `toLocaleLowerCase` is modelled as ASCII case folding.

## Model

| member | source | states |
|---|---|---|
| Catalog.KeyInjective | src/components/Metas/DataRender/ElementoResumen.tsx:38 | two (id, type) pairs have the same key exactly when they are equal, so a key names one pair |
| Catalog.KeySplits | src/components/Metas/DataRender/ElementoResumen.tsx:45 | the key splits at `-` into the id numeral and the type numeral |
| Catalog.BuildIndex | src/components/Metas/DataRender/ElementoResumen.tsx:35-42 | the `forEach` loop that fills the dictionary yields the index function `IndexOf` of the catalog |
| Catalog.IndexKeys | src/components/Metas/DataRender/ElementoResumen.tsx:35-42 | a key is in the index exactly when some catalog entry has it |
| Catalog.IndexLastWriteWins | src/components/Metas/DataRender/ElementoResumen.tsx:37-40 | a key maps to the last catalog entry with that key |
| Catalog.LookupFindsMatchingEntry | src/components/Metas/DataRender/ElementoResumen.tsx:44-47 | a lookup succeeds exactly when an entry has both the id and the type, and returns such an entry |
| Catalog.LookupUniqueCatalog | src/components/DataRender/DataRender.tsx:69-72 | in a catalog without repeated keys every entry is found by its own id and type |
| Catalog.Resolve | src/components/Metas/DataRender/ElementoResumen.tsx:54-56 | the `map`/`filter(Boolean)` step yields at most one entry per id, so no more entries than ids |
| Catalog.ResolveIsMapFilter | src/components/Metas/DataRender/ElementoResumen.tsx:54-56 | resolution is exactly the lookups of the ids in id order with the misses dropped (`map` then `filter(Boolean)`) |
| Catalog.ResolveMembers | src/components/Metas/DataRender/ElementoResumen.tsx:54-56 | every resolved entry is a catalog entry of the requested type whose id was asked for, and every id with such an entry is resolved |
| Catalog.ResolveKeepsAll | src/components/DataRender/DataRender.tsx:79-81 | nothing is dropped exactly when every id is found |
| Catalog.ResolveEmptyCatalog | src/components/Metas/DataRender/ElementoResumen.tsx:54-56 | with an empty catalog nothing resolves |
| Catalog.FindValoracionFirstMatch | src/components/Forms/FormMetas.tsx:164-167 | the rating name is found exactly when some rating has the id; it is the name of the first such rating |
| ElementoResumen.ByNomTotalPreorder | src/components/Metas/DataRender/ElementoResumen.tsx:57 | the name comparison is total and transitive, so the sort orders the entries |
| ElementoResumen.RenderAreaShown | src/components/Metas/DataRender/ElementoResumen.tsx:49-61 | a group is rendered exactly when the id list is present and some id resolves, with the group's label and type |
| ElementoResumen.RenderAreaSorted | src/components/Metas/DataRender/ElementoResumen.tsx:54-57 | a group's entries are the resolved entries, sorted by name, as a permutation |
| ElementoResumen.RenderAreaMembers | src/components/Metas/DataRender/ElementoResumen.tsx:54-56 | every entry shown is a catalog entry of the group's type whose id was listed, and there are no more entries than ids |
| ElementoResumen.PresentKeepsTypeOrder | src/components/Metas/DataRender/ElementoResumen.tsx:199-204 | the groups shown keep the order of the four calls |
| ElementoResumen.CandidatesSpec | src/components/Metas/DataRender/ElementoResumen.tsx:199-204 | types 1, 2 and 3 are resolved from `listaRelaciones` and type 4 from `listaProgramasSIPPE`, in that order, each under its heading and made only of entries whose ids are in its own list. Candidates 1-3 exist exactly when their type resolves from the relation list. Candidate 4 exists exactly when the SIPPE list is present and one of its ids resolves. |
| ElementoResumen.AreasSectionSpec | src/components/Metas/DataRender/ElementoResumen.tsx:197-208 | "No hay Areas Cargadas" shows exactly when the relation list is absent or empty. Otherwise there are at most four groups in increasing type. Each group is non-empty, under the heading of its type, and made of catalog entries of its type whose ids are in that type's list (relations for 1-3, SIPPE programs for 4). Groups 1-3 appear exactly when their type resolves; group 4 appears exactly when the SIPPE list is present and one of its ids resolves. |
| ElementoResumen.RenderObjetivosCases | src/components/Metas/DataRender/ElementoResumen.tsx:86-98 | "No hay objetivos cargados" shows exactly for an absent or empty list. "No hay objetivos filtrados" shows exactly when the catalog is missing. |
| ElementoResumen.RenderObjetivosSections | src/components/Metas/DataRender/ElementoResumen.tsx:91-126 | "Objetivos estratégicos" holds exactly the listed catalog objectives with id ≤ 4, and "Plan institucional" exactly those with id ≥ 5. No objective is in both. |
| ElementoResumen.RenderObjetivosPartition | src/components/Metas/DataRender/ElementoResumen.tsx:91-126 | the two sections together hold exactly the listed catalog objectives with id ≤ 4 or ≥ 5 (as multisets) |
| ElementoResumen.RenderObjetivosKeepsOrder | src/components/Metas/DataRender/ElementoResumen.tsx:91-126 | both sections keep catalog order: the sections of a catalog split in two are those of its parts, one after the other, and a single objective is shown, in the section of its id, exactly when the activity lists it |
| ElementoResumen.SchemeLengthPrefix | src/components/Metas/DataRender/ElementoResumen.tsx:76 | the scheme length is 8 exactly for an `https://` start and 7 exactly for an `http://` start |
| ElementoResumen.UrlTextWithoutScheme | src/components/Metas/DataRender/ElementoResumen.tsx:75-83 | a text with no `http://` or `https://` is returned unchanged |
| ElementoResumen.UrlTextAcrossWhitespace | src/components/Metas/DataRender/ElementoResumen.tsx:75-83 | the replacement works word by word: converting the text around a whitespace character converts each side and keeps the whitespace |
| ElementoResumen.UrlTextWholeWord | src/components/Metas/DataRender/ElementoResumen.tsx:75-83 | a whitespace-free word that starts with `http(s)://` and goes on past it becomes one anchor on the whole word |
| ElementoResumen.MetasSection | src/components/Metas/DataRender/ElementoResumen.tsx:171-191 | "No hay metas cargadas" shows exactly for an absent or empty list; otherwise there is one row per goal, in order |
| DataRender.UppercaseFirst | src/components/DataRender/DataRender.tsx:33 | upper-casing the first character keeps the length |
| DataRender.SpaceBeforeCapitalsLength | src/components/DataRender/DataRender.tsx:33 | exactly one character, a space, is added per capital |
| DataRender.CapitalsFollowSpace | src/components/DataRender/DataRender.tsx:33 | every capital of the spaced text has a space just before it |
| DataRender.SpacedStartsWithoutCapital | src/components/DataRender/DataRender.tsx:33 | the spaced text never starts with a capital |
| DataRender.RemoveSpacesRoundTrip | src/components/DataRender/DataRender.tsx:33 | removing the spaces before capitals gives the name back |
| DataRender.HumanLabelRoundTrip | src/components/DataRender/DataRender.tsx:32-34 | for a name starting with a small letter the label is that letter in capital plus the spaced rest; the name can be recovered from the label |
| DataRender.TwoWordLabel | src/components/DataRender/DataRender.tsx:32-34 | a two-word camel-case name reads as the capitalised first word, a space and the second word |
| DataRender.FechaDesdeLabel | src/components/DataRender/DataRender.tsx:32-34 | `fechaDesde` reads `Fecha Desde` |
| DataRender.StringValoracion | src/components/DataRender/DataRender.tsx:36-39 | a null rating names nothing; otherwise a name is returned exactly when some rating has the id, and it is the first such rating's name |
| DataRender.RenderAreaInOrderSpec | src/components/DataRender/DataRender.tsx:74-85 | a group is rendered exactly when some id resolves. Its entries are the lookups of the ids in id-list order, with misses dropped and no sort applied. They are catalog entries of the type. |
| DataRender.SummaryIsSortedView | src/components/DataRender/DataRender.tsx:79-81 | the summary card's group is this group sorted by name |
| DataRender.CandidateInOrder | src/components/DataRender/DataRender.tsx:74-85 | each group rendered is non-empty, of its type, and made of catalog entries |
| DataRender.RenderDataDispatch | src/components/DataRender/DataRender.tsx:180-183 | among the field names of a record, only `listaMetas`, `listaInstituciones`, `listaEnlaces` and `listaRelaciones` render, each as its own block with one entry per element; other data field names render nothing |
| DataRender.MetaItemShowsGoal | src/components/DataRender/DataRender.tsx:107-122 | each accordion item shows the goal's id, texts and rating name |
| DataRender.RelacionesBlockSpec | src/components/DataRender/DataRender.tsx:161-177 | for non-empty data the block resolves types 1-4 from the same ids, in order. Each group carries its type's fixed heading ("Internas Secretaria", "Internas UNL", "Unidades Académicas involucradas", "Programas de Extensión") and holds only catalog entries of its type whose ids are listed. A group shows exactly when its type resolves. |
| DataRender.FieldLabel | src/components/DataRender/DataRender.tsx:187 | the label is the Spanish title when one is given and non-empty, else the human form of the name |
| DataRender.RenderValue | src/components/DataRender/DataRender.tsx:186-198 | `null` renders nothing; any other value renders one line with its label |
| DataRender.RenderObjectSpec | src/components/DataRender/DataRender.tsx:200-211 | while loading, only "Cargando..." is shown. Otherwise there is one output per field in entry order: an array field is the `renderData` block of its elements and name, and a scalar field is its labelled line. |
| FormPeriodo.Pad2 | src/components/Forms/FormPeriodo.tsx:62-64 | the padded numeral is made of digits |
| FormPeriodo.ParsePad2 | src/components/Forms/FormPeriodo.tsx:62-64 | a padded month or day reads back as the same number |
| FormPeriodo.SplitDateToString | src/components/Forms/FormPeriodo.tsx:58-65 | the date string splits at `-` into the year numeral and the padded month and day |
| FormPeriodo.PrintDMADateToString | src/components/Forms/FormPeriodo.tsx:56 | printing a date string gives day/month/year of the same day |
| FormPeriodo.ParseSlashDate | src/components/Forms/FormPeriodo.tsx:40 | any day read from a `y/m/d` string is a calendar day |
| FormPeriodo.InitialRangeDate | src/components/Forms/FormPeriodo.tsx:39-45 | a missing or empty stored date gives no range end |
| FormPeriodo.InitialRangeDateToString | src/components/Forms/FormPeriodo.tsx:39-45 | a stored date string written by `dateToString` reads back as the same day |
| FormPeriodo.ParseIsoDate | src/components/Forms/FormPeriodo.tsx:114 | any day read from an ISO string is a calendar day |
| FormPeriodo.ParseIsoDateToString | src/components/Forms/FormPeriodo.tsx:114 | a date string with a four-digit year reads back as the same day |
| FormPeriodo.DateToStringOrder | src/components/Forms/FormPeriodo.tsx:77-85 | for four-digit years, the text order of date strings is the chronological order of the days |
| FormPeriodo.IndexDates | src/components/Forms/FormPeriodo.tsx:48-54 | `indexDates` holds exactly the entries whose date is not null |
| FormPeriodo.IndexDatesKeepsOrder | src/components/Forms/FormPeriodo.tsx:48-54 | `indexDates` keeps list order: a list split in two gives the entries of each part, one after the other, and a single entry is kept exactly when its date is not null |
| FormPeriodo.QuitarFecha | src/components/Forms/FormPeriodo.tsx:102-107 | afterwards no entry carries the date, and the entries kept are exactly those with another date |
| FormPeriodo.QuitarFechaKeepsOrder | src/components/Forms/FormPeriodo.tsx:102-107 | the entries kept stay in their original order: removing from a list split in two removes from each part, and a single entry is kept exactly when it carries another date |
| FormPeriodo.SeleccionadaIndexDates | src/components/Forms/FormPeriodo.tsx:71 | searching `indexDates` for a date string finds it exactly when the list has it |
| FormPeriodo.SelectDateSpec | src/components/Forms/FormPeriodo.tsx:71-88 | afterwards the date is listed. A date already listed changes nothing. A new one adds exactly the entry `{idFecha: 0, fecha}`: one entry longer, as a multiset. |
| FormPeriodo.SelectDateIdempotent | src/components/Forms/FormPeriodo.tsx:71 | picking the same date twice is picking it once |
| FormPeriodo.FechaLeTotalPreorder | src/components/Forms/FormPeriodo.tsx:77-85 | on dated entries the comparison is total and transitive |
| FormPeriodo.SelectDateKeepsOrder | src/components/Forms/FormPeriodo.tsx:72-88 | a dated, date-ordered list stays dated and date-ordered; a new date is inserted at its place |
| FormPeriodo.QuitarSelectDate | src/components/Forms/FormPeriodo.tsx:102-107 | removing a date just picked into a date-ordered list that lacked it gives the list back |
| FormPeriodo.FechaLeIsDayOrder | src/components/Forms/FormPeriodo.tsx:77-85 | on picked dates the list comparison is the chronological order of the days |
| FormPeriodo.Highlights | src/components/Forms/FormPeriodo.tsx:109-122 | there are no more highlighted days than entries |
| FormPeriodo.HighlightsOfPickedDays | src/components/Forms/FormPeriodo.tsx:109-122 | entries written by the picker are highlighted on their own days, in order |
| FormPeriodo.RangeError | src/components/Forms/FormPeriodo.tsx:125-135 | the error is the fixed message exactly when both ends are present, both are valid days and the start is after the end; a missing end or an invalid date gives no error |
| FormPeriodo.RangeSummaryOfPickedDays | src/components/Forms/FormPeriodo.tsx:220-234 | with both ends picked, a start after the end shows the error. Otherwise the line reads "El rango seleccionado es desde dd/mm/yyyy hasta dd/mm/yyyy" for the two days. |
| FormPeriodo.RangeSummaryShown | src/components/Forms/FormPeriodo.tsx:226-231 | with both ends set and no error the range line is shown |
| FormPeriodo.PickerOffWhileNoRange | src/components/Forms/FormPeriodo.tsx:220-252 | the single-date picker is off (an end is missing) exactly while the range line reads "Seleccione un rango de fechas"; once both ends are set the line is the error or the range |
| FormPeriodo.PeriodoForm.constructor | src/components/Forms/FormPeriodo.tsx:28-50 | the form starts from the stored dates and list, with the derived range days and `indexDates` |
| FormPeriodo.PeriodoForm.ValidarRango | src/components/Forms/FormPeriodo.tsx:125-135 | the error is the range error of the two ends, and the result is true exactly when it is empty; nothing else changes |
| FormPeriodo.PeriodoForm.SelectStartDate | src/components/Forms/FormPeriodo.tsx:92-95 | the start is the picked day in both forms, the end is unchanged, and the error is recomputed |
| FormPeriodo.PeriodoForm.SelectEndDate | src/components/Forms/FormPeriodo.tsx:97-100 | the end is the picked day in both forms, the start is unchanged, and the error is recomputed |
| FormPeriodo.PeriodoForm.SyncIndexDates | src/components/Forms/FormPeriodo.tsx:52-54 | `indexDates` is recomputed from the list and nothing else changes |
| FormPeriodo.PeriodoForm.SelectDateHandler | src/components/Forms/FormPeriodo.tsx:67-90 | the list becomes `SelectDate` of the old list and the picked day's string; the range, and so whether the picker is enabled, is unchanged |
| FormPeriodo.PeriodoForm.EliminarFecha | src/components/Forms/FormPeriodo.tsx:102-107 | the list becomes `QuitarFecha` of the old list; the range is unchanged |
| FormPeriodo.PeriodoForm.HighlightSelectedDates | src/components/Forms/FormPeriodo.tsx:109-122 | the push loop returns `Highlights(indexDates)` |
| FormPeriodo.PeriodoForm.PickerDisabled | src/components/Forms/FormPeriodo.tsx:252 | the picker is disabled exactly while the form's range line asks for a range |
| FormMetas.Saved | src/components/Forms/FormMetas.tsx:101-117 | position −1 appends the draft after the unchanged goals. Any other position keeps the length, puts the draft there and changes no other position. |
| FormMetas.Removed | src/components/Forms/FormMetas.tsx:127-132 | `splice(i, 1)` removes exactly the goal at i: one shorter, the rest in order, as a multiset |
| FormMetas.EditUntouched | src/components/Forms/FormMetas.tsx:119-125 | editing a goal and saving it untouched leaves the list as it was |
| FormMetas.EditThenRestore | src/components/Forms/FormMetas.tsx:109-114 | writing the original goal back undoes an edit |
| FormMetas.RemoveSavedNew | src/components/Forms/FormMetas.tsx:104-108 | deleting a goal just added gives the list back |
| FormMetas.LimitTextString | src/components/Forms/FormMetas.tsx:160-162 | the result is the prefix of length min(length, limit). It is the whole text exactly when the text is within the limit, so exactly 500 characters is not marked. |
| FormMetas.Tabla | src/components/Forms/FormMetas.tsx:193-199 | one row per goal |
| FormMetas.TablaSpec | src/components/Forms/FormMetas.tsx:193-199 | rows are numbered from 1 and show the goal's description cut to 10 characters and its result and remarks cut to 30 (null read as empty), so at most 10 / 30 / 30 characters. The rating name is shown exactly when some rating has the id (0 for null), and it is the name of the first rating with that id. |
| FormMetas.MetasForm.constructor | src/components/Forms/FormMetas.tsx:40-44 | no goals, the default draft (`idMeta` 0, empty texts, no rating), position −1 and the dialog closed |
| FormMetas.MetasForm.BotonAgregarMeta | src/components/Forms/FormMetas.tsx:93-99 | position −1, the default draft and the dialog open; the list is unchanged |
| FormMetas.MetasForm.EditarMeta | src/components/Forms/FormMetas.tsx:119-125 | the goal at i becomes the draft at position i in the open dialog; the list is unchanged |
| FormMetas.MetasForm.GuardarBotonModal | src/components/Forms/FormMetas.tsx:101-117 | the list becomes `Saved` of the old list, position and draft, and the dialog closes |
| FormMetas.MetasForm.CloseModal | src/components/Forms/FormMetas.tsx:89-91 | the dialog closes and nothing else changes |
| FormMetas.MetasForm.EliminarMeta | src/components/Forms/FormMetas.tsx:127-132 | the list becomes `Removed` of the old list at i |
| FormMetas.MetasForm.SetDescripcion | src/components/Forms/FormMetas.tsx:247-249 | only the draft's description changes |
| FormMetas.MetasForm.SetResultado | src/components/Forms/FormMetas.tsx:259-261 | only the draft's result changes |
| FormMetas.MetasForm.SetObservaciones | src/components/Forms/FormMetas.tsx:281-283 | only the draft's remarks change |
| FormMetas.MetasForm.SetValoracion | src/components/Forms/FormMetas.tsx:297-299 | only the draft's rating changes |
| FormMetas.MetasForm.ResultadoInvalido | src/components/Forms/FormMetas.tsx:262-267 | the result box and its counter are marked exactly when the text would not survive a cut at 500 characters |
| FormMetas.MetasForm.ObservacionesInvalidas | src/components/Forms/FormMetas.tsx:284-289 | the remarks box and its counter are marked exactly when the text would not survive a cut at 500 characters |
| ActivityScreen.Search | src/pages/metas/ActivityScreen.tsx:216-224 | the activities kept are exactly those whose lower-cased description contains the lower-cased query |
| ActivityScreen.SearchKeepsOrder | src/pages/metas/ActivityScreen.tsx:216-224 | the search keeps list order: searching a list split in two gives the matches of each part, one after the other, and a single activity is kept exactly when it matches |
| ActivityScreen.SearchEmptyQuery | src/pages/metas/ActivityScreen.tsx:225-227 | the empty query keeps every activity |
| ActivityScreen.SearchIgnoresCase | src/pages/metas/ActivityScreen.tsx:218-220 | the search gives the same result for a query and its lower-case form |
| ActivityScreen.Displayed | src/pages/metas/ActivityScreen.tsx:304 | the list shown is empty only when both lists are; everything shown comes from one of them |
| ActivityScreen.DisplayedSearch | src/pages/metas/ActivityScreen.tsx:304 | a search with no match shows every activity; a search with a match shows exactly the matches |
| ActivityScreen.NuevaActividadPara | src/pages/metas/ActivityScreen.tsx:153-160 | the new activity has id 0, number = count + 1, the area's id, the typed text and no dates |
| ActivityScreen.SelectForm | src/pages/metas/ActivityScreen.tsx:185-210 | choosing the first form keeps the change flag. Otherwise, with no pending changes or on confirmation, the new form is chosen and the flag is cleared. With changes and no confirmation nothing changes. The flag is never raised. |
| ActivityScreen.FormItemVariant | src/pages/metas/ActivityScreen.tsx:355-361 | the item is "secondary" exactly when it is not the chosen form, and "warning" exactly when it is chosen with pending changes |
| ActivityScreen.MenuHighlightsAtMostOne | src/pages/metas/ActivityScreen.tsx:352-361 | of two different menu items at least one is "secondary" |
| ActivityScreen.ActivitySlice.constructor | src/pages/metas/ActivityScreen.tsx:59 | the store slice holds the given change flag and cancellation reason |
| ActivityScreen.Screen.constructor | src/pages/metas/ActivityScreen.tsx:40-52 | the screen starts with no activities, no search, the planification closed and no form chosen |
| ActivityScreen.Screen.ResetSearch | src/pages/metas/ActivityScreen.tsx:225-227 | the search result is recomputed for the empty query and nothing else changes |
| ActivityScreen.Screen.CargarActividades | src/pages/metas/ActivityScreen.tsx:115-117 | the fetched activities are stored and, after the search effect, all are listed |
| ActivityScreen.Screen.OnSearchChange | src/pages/metas/ActivityScreen.tsx:216-224 | the search result becomes `Search` of the activities and the query |
| ActivityScreen.Screen.SubmitForm | src/pages/metas/ActivityScreen.tsx:147-170 | the posted record is `NuevaActividadPara` of the area, the activities and the typed text; the text is cleared and the dialog closed |
| ActivityScreen.Screen.ClosePlanification | src/pages/metas/ActivityScreen.tsx:181-183 | the planification flag toggles and the search is reset |
| ActivityScreen.Screen.OpenActivity | src/pages/metas/ActivityScreen.tsx:312-316 | the clicked activity's id is loaded and its name shown, and the planification toggles |
| ActivityScreen.Screen.SelectCurrentForm | src/pages/metas/ActivityScreen.tsx:185-210 | the chosen form and the change flag become `SelectForm` of the old ones |
| ActivityScreen.Screen.CleanFormSelected | src/pages/metas/ActivityScreen.tsx:212-214 | no form is chosen and nothing else changes |
| PlanificationPanel.FormFor | src/components/PlanificationPanel.tsx:264-285 | a form is chosen only by its own type name |
| PlanificationPanel.FormForName | src/components/PlanificationPanel.tsx:35-44 | each of the eight type names selects its own form |
| PlanificationPanel.FormForOnlyNames | src/components/PlanificationPanel.tsx:264-285 | a name shows a form exactly when it is one of the eight type names |
| PlanificationPanel.BotonesVisibles | src/components/PlanificationPanel.tsx:231-260 | "Actividad Suspendida" needs no chosen form and a reason. Suspend/delete need no open form, no reason and edit rights. The two are never offered together. |
| PlanificationPanel.SuspensionValidator | src/components/PlanificationPanel.tsx:104 | the reason is refused, with "Debe ingresar un motivo", exactly when it is empty |
| PlanificationPanel.Panel.constructor | src/components/PlanificationPanel.tsx:58-60 | the panel opens the screen's chosen form, if any, with the dialog closed |
| PlanificationPanel.Panel.HandleFormChange | src/components/PlanificationPanel.tsx:68-71 | the form is opened on the given type |
| PlanificationPanel.Panel.SyncSelection | src/components/PlanificationPanel.tsx:155-159 | a non-empty screen choice opens that form; an empty one changes nothing |
| PlanificationPanel.Panel.SelectFromMenu | src/pages/metas/ActivityScreen.tsx:365-367 | a menu click performs the guarded selection, and the open form stays in step with the screen's choice. The sidebar, the search result, the planification toggle and the cancellation reason are unchanged. |
| PlanificationPanel.Panel.BackArrow | src/components/PlanificationPanel.tsx:218-228 | with pending changes only the dialog opens. Otherwise an open form is closed and the choice cleared; with no form open, the planification closes and the search is reset. The sidebar and the store are never touched. |
| PlanificationPanel.Panel.ModalCancel | src/components/PlanificationPanel.tsx:173-175 | the dialog closes and the form is left as it was |
| PlanificationPanel.Panel.ModalSalir | src/components/PlanificationPanel.tsx:176-189 | with a form open, the form and the dialog close, the choice is cleared and the changes dropped, and the search stays. Otherwise the planification and the dialog close and the search is reset. The sidebar and the cancellation reason are never touched. |
| PanelProgramas.YearsArray | src/components/Metas/Panels/PanelProgramas.tsx:55 | there are currentYear − 2022 years (none if that is not positive), from the current year down to 2023, one apart |
| PanelProgramas.YearsArrayCovers | src/components/Metas/Panels/PanelProgramas.tsx:72-76 | the years offered are exactly 2023 to the current year |
| PanelProgramas.AreaPathInjective | src/components/Metas/Panels/PanelProgramas.tsx:52 | two routes are equal exactly when they name the same program and area |
| PanelProgramas.ProgramsPanel.constructor | src/components/Metas/Panels/PanelProgramas.tsx:16-20 | the panel starts on the current year with no program chosen and no areas listed |
| PanelProgramas.ProgramsPanel.HandleYearChange | src/components/Metas/Panels/PanelProgramas.tsx:57-61 | the listed areas are emptied and the year set |
| PanelProgramas.ProgramsPanel.SelectPrograma | src/components/Metas/Panels/PanelProgramas.tsx:124-127 | the areas listed are the clicked program's and its id is kept |
| PanelProgramas.ProgramsPanel.OpenArea | src/components/Metas/Panels/PanelProgramas.tsx:44-53 | the record stored is the area's id and name, the chosen program and the year, without the activity list. The area belongs to that program, and the route is `/gestion/metas/{idPrograma}/{idArea}`. |
| Common.Filter | src/components/Forms/FormPeriodo.tsx:103-105 | `filter` keeps exactly the elements that pass the test |
| Common.LowerStringIdempotent | src/pages/metas/ActivityScreen.tsx:219 | lower-casing twice is lower-casing once |
| Common.SplitJoin | src/components/Forms/FormPeriodo.tsx:56 | splitting joined separator-free pieces gives the pieces back |
| Common.JoinSplit | src/components/Forms/FormPeriodo.tsx:40 | joining the pieces of a split with the same separator gives the text back |
| Common.ParseNatToString | src/components/Forms/FormPeriodo.tsx:62 | a numeral reads back as its number |
| Common.StringLeTotal | src/components/Metas/DataRender/ElementoResumen.tsx:57 | the string order is total |
| Common.StringLeTransitive | src/components/Metas/DataRender/ElementoResumen.tsx:57 | the string order is transitive |
| Common.DigitsOrder | src/components/Forms/FormPeriodo.tsx:62-64 | fixed-width numerals compare as text as their numbers do |
| Sorting.Sort | src/components/Forms/FormPeriodo.tsx:77 | sorting permutes the list |
| Sorting.SortSorted | src/components/Metas/DataRender/ElementoResumen.tsx:57 | under a total preorder the sorted list is ordered |
| Sorting.InsertSorted | src/components/Forms/FormPeriodo.tsx:77-86 | inserting into an ordered list keeps it ordered |
| Sorting.SortOfSorted | src/components/Forms/FormPeriodo.tsx:77-86 | the stable sort leaves an ordered list as it is |
| Sorting.SortAppendToSorted | src/components/Forms/FormPeriodo.tsx:77-86 | sorting an ordered list with one element appended inserts that element |

## Left out

- HTTP and server calls are left out; their results are inputs:
  - the base catalogs (`fetchBases`, `getBases`, `getValoraciones`);
  - posting an activity and fetching its list (`postActivity`, `mostrarActividades`), with their error alerts;
  - the suspend, restore and delete calls (`handleApiCall`);
  - the program fetch (`obtenerProgramas`). In `PanelProgramas.ProgramsPanel` the program list is fixed for the panel's lifetime, so the model does not show the list being reloaded after a year change.
- Redux plumbing is left out: the store sync of the goals form (FormMetas.tsx:65-84), `dispatch` of loaded activities and the save buttons (`guardarActividad`).
- The SweetAlert dialogs are left out beyond the `confirmed` parameter of `SelectForm`. This covers the goal detail view `alertVistaDetalle`, the suspension/restore/delete dialogs and the error alerts.
- localStorage, navigation and `window.location` are left out. The stored area record and the route are method results of `OpenArea`; the initial area of `ActivityScreen.Screen` is a constructor parameter.
- JavaScript `Date` is left out: time of day, the `-03:00` offset of `highlightSelectedDates`, time zones, and the rollover of impossible days such as 31 February (days are only checked to have a month 1-12 and a day 1-31). Inputs that `new Date` accepts other than `YYYY-MM-DD`/`YYYY/MM/DD` become `InvalidDate`. The DatePicker min/max bounds and `locale` are also left out.
- The model compares dates as strings, not by `getTime()`, so the two agree only on the strings the form itself writes.
  - On strings written by `dateToString` with four-digit years they agree (`FormPeriodo.FechaLeIsDayOrder`).
  - Entries with a null or non-date string are not modelled: the source comparator returns 0 or `NaN` for them.
- FormPeriodo.SelectDateKeepsOrder: stated only for lists whose entries all have non-empty dates. The source comparator treats a null entry as equal to everything, which is not a consistent order.
- `localeCompare` is modelled as code-unit order, and `toLocaleLowerCase` as ASCII case folding. Accented and other non-ASCII letters are not folded.
- The `https?://[^\s]+` replacement is modelled as a left-to-right scan. The whitespace set is that of JavaScript `\s`.
- Rendering is left out: markup, styles, keys and `dangerouslySetInnerHTML`. Scalar field values are shown as given text, and `Object.entries` order is the order of the field list.
- FormPeriodo.PeriodoForm.SelectStartDate and FormPeriodo.PeriodoForm.SelectEndDate require a calendar day, the only kind the date picker hands over. Clearing a picker (a `null` change) is not modelled.
- FormMetas.MetasForm.GuardarBotonModal requires the dialog to be open, because only the dialog's button calls it.
- FormMetas.MetasForm.EliminarMeta requires the dialog to be closed, because the dialog covers the table while it is open.
- PlanificationPanel.Panel.SelectFromMenu requires a non-empty form name, because every menu entry has one.
- ActivityScreen.Screen.OpenActivity, PanelProgramas.ProgramsPanel.SelectPrograma and PanelProgramas.ProgramsPanel.OpenArea take the position of an item shown on screen, so the position is in range.
- The search box text, the create-activity dialog toggles (`handleShow`, `handleClose`) and the loading flags are not modelled beyond `term` and `show`.
- Remounting the planification panel, which resets its state, is not modelled.
- The form components chosen by the panel's switch are named, not rendered.
- `FormMetas.Tabla` uses `Catalog.FindValoracion` for `valoracionesText`, the same lookup as `stringValoracion` of the record view.
- The area index of the record view (DataRender.tsx:60-72) is the same code as the summary card's and is modelled once, as `Catalog.BuildIndex`.
- Strings are sequences of Unicode scalar values (Dafny `char`), whereas JavaScript strings are sequences of UTF-16 code units. A character outside the Basic Multilingual Plane counts once in the model and twice in the source.
- FormMetas.LimitTextString: counts Unicode scalar values, not UTF-16 code units as `length` and `substring` do. On text with characters outside the Basic Multilingual Plane the cut point and the 500-character mark differ from the source, and the source's `substring` can split a surrogate pair, which the model cannot.
- FormMetas.MetasForm.ResultadoInvalido and FormMetas.MetasForm.ObservacionesInvalidas: the same counting difference as `LimitTextString`.
- DataRender.UppercaseFirst: upper-cases only `a`-`z`; JavaScript `toUpperCase` also maps accented letters and turns `ß` into "SS", which changes the length. The length claim is about the model's ASCII upper-casing.
- DataRender.RenderDataDispatch: `renderers[dataType]` also finds members inherited from `Object.prototype`. A data field named `toString`, `constructor`, `valueOf` or `hasOwnProperty` makes the source call that inherited member instead of rendering nothing. The model renders nothing for every name other than the four lists.
- DataRender.FieldLabel: `spanishTitles[nameData]` (DataRender.tsx:186) also finds members inherited from `Object.prototype`. For a field named `toString`, `constructor`, `valueOf` or `hasOwnProperty` the source shows that function instead of a readable label. The model shows `CamelCaseToHuman` of the name. DataRender.RenderValue and DataRender.RenderObjectSpec inherit this gap through the label.
- Catalog ids are natural numbers (`Area.idRelacion`, `Area.idTipoRelacion` and the id lists). A negative JavaScript number would print with a `-`, and such ids are not modelled.
