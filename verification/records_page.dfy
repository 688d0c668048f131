/** The records page: a small controller state (form dialog, record being
    edited, delete dialog, id pending deletion) whose handlers decide which
    store action, if any, is dispatched. `App` joins the page to the store
    and the form so that whole user interactions can be stated. */
module RecordsPage {
  import opened Wrappers
  import opened HealthRecords
  import opened RecordForm

  datatype PageState = PageState(
    formOpen: bool,
    deleteDialogOpen: bool,
    editing: Option<HealthRecord>,
    deletingId: string)

  /** Both dialogs closed, nothing being edited, no deletion pending. */
  const InitialPage: PageState := PageState(false, false, None, "")

  /** A handler's outcome: the next page state and the action it dispatched. */
  datatype Step = Step(page: PageState, dispatched: Option<Action>)

  /** `handleAdd`: open the form for a new record. */
  function HandleAdd(p: PageState): (q: PageState)
    ensures q.formOpen && q.editing == None
    ensures q.deleteDialogOpen == p.deleteDialogOpen && q.deletingId == p.deletingId
  {
    p.(editing := None, formOpen := true)
  }

  /** `handleEdit`: open the form on an existing record. */
  function HandleEdit(p: PageState, record: HealthRecord): (q: PageState)
    ensures q.formOpen && q.editing == Some(record)
    ensures q.deleteDialogOpen == p.deleteDialogOpen && q.deletingId == p.deletingId
  {
    p.(editing := Some(record), formOpen := true)
  }

  /** `handleDelete`: remember the id and ask for confirmation. */
  function HandleDelete(p: PageState, id: string): (q: PageState)
    ensures q.deleteDialogOpen && q.deletingId == id
    ensures q.formOpen == p.formOpen && q.editing == p.editing
  {
    p.(deletingId := id, deleteDialogOpen := true)
  }

  /** `confirmDelete`: dispatch the deletion of the pending id, close the
      dialog and forget the id. */
  function ConfirmDelete(p: PageState): (s: Step)
    ensures s.dispatched == Some(Delete(p.deletingId))
    ensures !s.page.deleteDialogOpen && s.page.deletingId == ""
    ensures s.page.formOpen == p.formOpen && s.page.editing == p.editing
  {
    Step(p.(deleteDialogOpen := false, deletingId := ""), Some(Delete(p.deletingId)))
  }

  /** `handleSubmit`: an update while editing, an add otherwise; either way
      the form closes and editing ends. */
  function HandleSubmit(p: PageState, data: HealthRecord): (s: Step)
    ensures p.editing.Some? ==> s.dispatched == Some(Update(data))
    ensures p.editing.None? ==> s.dispatched == Some(Add(data))
    ensures !s.page.formOpen && s.page.editing == None
    ensures s.page.deleteDialogOpen == p.deleteDialogOpen && s.page.deletingId == p.deletingId
  {
    var action := if p.editing.Some? then Update(data) else Add(data);
    Step(p.(formOpen := false, editing := None), Some(action))
  }

  /** The form's cancel button: close the form and end editing. */
  function CancelForm(p: PageState): (q: PageState)
    ensures !q.formOpen && q.editing == None
    ensures q.deleteDialogOpen == p.deleteDialogOpen && q.deletingId == p.deletingId
  {
    p.(formOpen := false, editing := None)
  }

  /** The form dialog's open-change callback (closing it by the overlay or
      the escape key): only the open flag changes, editing is kept. */
  function FormOpenChange(p: PageState, open: bool): (q: PageState)
    ensures q.formOpen == open
    ensures q.editing == p.editing && q.deleteDialogOpen == p.deleteDialogOpen && q.deletingId == p.deletingId
  {
    p.(formOpen := open)
  }

  /** The delete dialog's open-change callback (its cancel button among
      others): only the open flag changes, the pending id is kept. */
  function DeleteDialogOpenChange(p: PageState, open: bool): (q: PageState)
    ensures q.deleteDialogOpen == open
    ensures q.formOpen == p.formOpen && q.editing == p.editing && q.deletingId == p.deletingId
  {
    p.(deleteDialogOpen := open)
  }

  // ---------------------------------------------------------------------
  // The page together with the store

  datatype App = App(store: State, page: PageState)

  /** The user's interactions with the page. A submission carries the form
      values and the timestamp id the form would mint. */
  datatype Event =
    | ClickAdd
    | ClickEdit(record: HealthRecord)
    | ClickDelete(id: string)
    | ClickConfirmDelete
    | SubmitForm(values: FormValues, freshId: string)
    | ClickCancel
    | FormDialogChange(open: bool)
    | DeleteDialogChange(open: bool)

  /** Run a dispatched action, if any, through the store's reducer. */
  function Dispatch(store: State, action: Option<Action>): State {
    match action
    case None => store
    case Some(a) => Reduce(store, a)
  }

  /** One interaction. A submission that fails validation leaves everything
      as it was (the form stays open and shows its issues). */
  function Apply(app: App, e: Event): (next: App)
    ensures !e.ClickConfirmDelete? && !e.SubmitForm? ==> next.store == app.store
    ensures e.ClickConfirmDelete? ==> next.store.records == DeleteRecord(app.store.records, app.page.deletingId)
    ensures e.SubmitForm? && !Acceptable(e.values) ==> next == app
    ensures next.store.loading == app.store.loading && next.store.error == app.store.error
  {
    match e
    case ClickAdd => app.(page := HandleAdd(app.page))
    case ClickEdit(r) => app.(page := HandleEdit(app.page, r))
    case ClickDelete(id) => app.(page := HandleDelete(app.page, id))
    case ClickConfirmDelete =>
      var s := ConfirmDelete(app.page);
      App(Dispatch(app.store, s.dispatched), s.page)
    case SubmitForm(values, freshId) =>
      (match Submit(app.page.editing, values, freshId)
       case Failure(_) => app
       case Success(record) =>
         var s := HandleSubmit(app.page, record);
         App(Dispatch(app.store, s.dispatched), s.page))
    case ClickCancel => app.(page := CancelForm(app.page))
    case FormDialogChange(open) => app.(page := FormOpenChange(app.page, open))
    case DeleteDialogChange(open) => app.(page := DeleteDialogOpenChange(app.page, open))
  }

  /** Every stored record passes the form's schema. */
  predicate StoreAcceptable(store: State) {
    forall i :: 0 <= i < |store.records| ==> RecordAcceptable(store.records[i])
  }

  // ---------------------------------------------------------------------
  // Lemmas about whole interactions

  /** Saving an edit of a stored record with a non-empty id keeps the list's
      length, puts the new values at the record's position, keeps its id and
      changes nothing else. */
  lemma SubmitEditReplacesInPlace(app: App, record: HealthRecord, values: FormValues, freshId: string)
    requires app.page.editing == Some(record) && record.id != ""
    requires HasId(app.store.records, record.id)
    requires Acceptable(values)
    ensures var next := Apply(app, SubmitForm(values, freshId));
      var k := FindIndex(app.store.records, record.id);
      && |next.store.records| == |app.store.records|
      && next.store.records[k] == BuildRecord(Some(record), values, freshId)
      && next.store.records[k].id == record.id
      && (forall j :: 0 <= j < |app.store.records| && j != k ==> next.store.records[j] == app.store.records[j])
      && !next.page.formOpen && next.page.editing == None
  {
  }

  /** Submitting a new record puts it at the head, with the fresh id. */
  lemma SubmitNewPrepends(app: App, values: FormValues, freshId: string)
    requires app.page.editing == None
    requires Acceptable(values)
    ensures var next := Apply(app, SubmitForm(values, freshId));
      && next.store.records == AddRecord(app.store.records, BuildRecord(None, values, freshId))
      && next.store.records[0].id == freshId
      && |next.store.records| == |app.store.records| + 1
      && !next.page.formOpen && next.page.editing == None
  {
  }

  /** Editing a record whose id is empty mints a fresh id, and the update
      that follows finds nothing to replace when that id is new: the edit is
      silently lost, though the form closes as after a successful save. The
      page's own records never have an empty id (the seeds are "1" to "3" and
      new ids are timestamps), so this concerns records from elsewhere. */
  lemma EditOfEmptyIdIsLost(app: App, record: HealthRecord, values: FormValues, freshId: string)
    requires app.page.editing == Some(record) && record.id == ""
    requires !HasId(app.store.records, freshId)
    requires Acceptable(values)
    ensures var next := Apply(app, SubmitForm(values, freshId));
      next.store == app.store && !next.page.formOpen
  {
  }

  /** Confirming a deletion removes every record with the pending id,
      closes the dialog and resets the pending id. */
  lemma ConfirmDeleteRemovesPending(app: App)
    ensures var next := Apply(app, ClickConfirmDelete);
      && !HasId(next.store.records, app.page.deletingId)
      && next.page.deletingId == ""
      && !next.page.deleteDialogOpen
  {
  }

  /** The delete flow: clicking delete on an id and confirming removes
      exactly that id from a list of distinct ids, one record shorter. */
  lemma DeleteFlowRemovesOne(app: App, id: string)
    requires IdsDistinct(app.store.records) && HasId(app.store.records, id)
    ensures var next := Apply(Apply(app, ClickDelete(id)), ClickConfirmDelete);
      && |next.store.records| == |app.store.records| - 1
      && !HasId(next.store.records, id)
      && next.page.deletingId == "" && !next.page.deleteDialogOpen
  {
    DeletePresentRemovesOne(app.store.records, id);
  }

  /** Ids stay distinct under every interaction, provided a new record's
      timestamp id is not already in use. */
  lemma ApplyKeepsIdsDistinct(app: App, e: Event)
    requires IdsDistinct(app.store.records)
    requires e.SubmitForm? && app.page.editing.None? ==> !HasId(app.store.records, e.freshId)
    ensures IdsDistinct(Apply(app, e).store.records)
  {
    match e
    case ClickConfirmDelete =>
      DeleteKeepsDistinct(app.store.records, app.page.deletingId);
    case SubmitForm(values, freshId) =>
      var result := Submit(app.page.editing, values, freshId);
      if result.Success? {
        if app.page.editing.Some? {
          UpdateKeepsDistinct(app.store.records, result.value);
        } else {
          AddDistinctIff(app.store.records, result.value);
        }
      }
    case _ =>
  }

  /** The store only ever receives records that passed the schema: if every
      stored record is in range, it stays so after every interaction. */
  lemma ApplyKeepsStoreAcceptable(app: App, e: Event)
    requires StoreAcceptable(app.store)
    ensures StoreAcceptable(Apply(app, e).store)
  {
    match e
    case ClickConfirmDelete =>
      var kept := DeleteRecord(app.store.records, app.page.deletingId);
      forall i | 0 <= i < |kept|
        ensures RecordAcceptable(kept[i])
      {
        assert kept[i] in app.store.records;
      }
    case SubmitForm(values, freshId) =>
      var result := Submit(app.page.editing, values, freshId);
      if result.Success? {
        assert RecordAcceptable(result.value);
      }
    case _ =>
  }

  /** The application starts with the seeded store, in the schema and with
      distinct ids, both dialogs closed, nothing edited and no deletion
      pending. */
  lemma InitialAppWellFormed()
    ensures var app := App(InitialState(), InitialPage);
      && StoreAcceptable(app.store) && IdsDistinct(app.store.records)
      && !app.page.formOpen && !app.page.deleteDialogOpen
      && app.page.editing.None? && app.page.deletingId == ""
  {
  }
}
