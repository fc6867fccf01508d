/** The car model editor of the back office (`/admin/modelos`): a dialog that creates a model
    when no model is being edited and updates the edited one otherwise, a confirmed delete, and
    a re-fetch of both lists after every successful write. */
module AdminModels {
  import opened Entities
  import opened Forms
  import Store

  const CreatedTitle: string := "Modelo creado correctamente"
  const UpdatedTitle: string := "Modelo actualizado correctamente"
  const DeletedTitle: string := "Modelo eliminado correctamente"

  /** The write a submit issues: an update keyed by the edited model's id in edit mode, an insert
      otherwise. */
  function SubmitRequest(editing: Option<CarModel>, form: ModelForm): (r: Store.Request)
    ensures Store.IsWrite(r)
    ensures editing.Some? <==> r.UpdateCarModel?
    ensures editing.None? <==> r.InsertCarModel?
    ensures editing.Some? ==> r.id == editing.value.id
    ensures r.model == ModelPayloadOf(form)
  {
    if editing.Some? then Store.UpdateCarModel(editing.value.id, ModelPayloadOf(form))
    else Store.InsertCarModel(ModelPayloadOf(form))
  }

  class AdminModelsPage {
    var models: seq<CatalogCar>
    var brands: seq<Brand>
    var loading: bool
    var isDialogOpen: bool
    var editingModel: Option<CarModel>
    var formData: ModelForm

    /** Mounting: empty lists, closed dialog, blank form, loading. */
    constructor (currentYear: int)
      ensures models == [] && brands == [] && loading
      ensures !isDialogOpen && editingModel.None? && formData == DefaultModelForm(currentYear)
    {
      models := [];
      brands := [];
      loading := true;
      isDialogOpen := false;
      editingModel := None;
      formData := DefaultModelForm(currentYear);
    }

    /** `fetchData` up to the `await`: loading, and both selects issued. */
    method StartFetch(db: Store.Backend)
      modifies this`loading, db`requests
      ensures loading
      ensures db.requests == old(db.requests) + [Store.SelectCarModels, Store.SelectBrands]
    {
      loading := true;
      db.Select(Store.SelectCarModels);
      db.Select(Store.SelectBrands);
    }

    /** `fetchData` after the `await`: a list is replaced only when its response carried data. */
    method FetchCompleted(modelsRes: Option<seq<CatalogCar>>, brandsRes: Option<seq<Brand>>)
      modifies this`models, this`brands, this`loading
      ensures models == (if modelsRes.Some? then modelsRes.value else old(models))
      ensures brands == (if brandsRes.Some? then brandsRes.value else old(brands))
      ensures !loading
    {
      if modelsRes.Some? { models := modelsRes.value; }
      if brandsRes.Some? { brands := brandsRes.value; }
      loading := false;
    }

    /** `openEditDialog`: edit mode for `model`, with the form filled from it. */
    method OpenEditDialog(model: CarModel)
      modifies this`editingModel, this`formData, this`isDialogOpen
      ensures editingModel == Some(model) && formData == ModelFormOf(model) && isDialogOpen
    {
      editingModel := Some(model);
      formData := ModelFormOf(model);
      isDialogOpen := true;
    }

    /** `closeDialog`: closed, back in create mode, blank form. */
    method CloseDialog(currentYear: int)
      modifies this`editingModel, this`formData, this`isDialogOpen
      ensures !isDialogOpen && editingModel.None? && formData == DefaultModelForm(currentYear)
    {
      isDialogOpen := false;
      editingModel := None;
      formData := DefaultModelForm(currentYear);
    }

    /** The "Nuevo Modelo" button: `closeDialog`, then the dialog trigger opens it, so a new model
        always starts from the blank form. */
    method NewModel(currentYear: int)
      modifies this`editingModel, this`formData, this`isDialogOpen
      ensures isDialogOpen && editingModel.None? && formData == DefaultModelForm(currentYear)
    {
      CloseDialog(currentYear);
      isDialogOpen := true;
    }

    /** The dialog's own open/close control (overlay, close button): only the flag changes. */
    method SetDialogOpen(open: bool)
      modifies this`isDialogOpen
      ensures isDialogOpen == open
    {
      isDialogOpen := open;
    }

    /** A form control's `onChange`. */
    method EditForm(f: ModelForm)
      modifies this`formData
      ensures formData == f
    {
      formData := f;
    }

    /** `handleSubmit`. An incomplete form never reaches the handler. Otherwise exactly one write
        is issued; on failure its message is shown and nothing else changes; on success both lists
        are re-fetched and the dialog is closed. */
    method HandleSubmit(db: Store.Backend, newId: Id, now: string, currentYear: int, refusal: Option<string>)
      returns (toast: Option<Toast>)
      requires db.Valid()
      modifies this, db
      ensures db.Valid()
      ensures !ModelFormComplete(old(formData)) ==>
        toast.None? && unchanged(this) && unchanged(db)
      ensures ModelFormComplete(old(formData)) ==>
        var write := SubmitRequest(old(editingModel), old(formData));
        var payload := ModelPayloadOf(old(formData));
        var error :=
          if old(editingModel).Some? then Store.UpdateCarModelOutcome(old(db.carModels), old(db.brands), old(editingModel).value.id, payload, refusal)
          else Store.InsertCarModelOutcome(old(db.carModels), old(db.brands), newId, payload, refusal);
        && db.brands == old(db.brands)
        && (error.Some? ==>
              && toast == Some(ErrorToast("Error", error.value))
              && db.requests == old(db.requests) + [write]
              && db.carModels == old(db.carModels)
              && unchanged(this))
        && (error.None? ==>
              && toast == Some(InfoToast(if old(editingModel).Some? then UpdatedTitle else CreatedTitle))
              && db.requests == old(db.requests) + [write, Store.SelectCarModels, Store.SelectBrands]
              && db.carModels ==
                   (if old(editingModel).None?
                    then old(db.carModels)[newId := Store.NewCarModel(newId, now, payload)]
                    else var id := old(editingModel).value.id;
                      if id in old(db.carModels)
                      then old(db.carModels)[id := Store.PatchCarModel(old(db.carModels)[id], payload)]
                      else old(db.carModels))
              && loading && !isDialogOpen && editingModel.None?
              && formData == DefaultModelForm(currentYear)
              && models == old(models) && brands == old(brands))
    {
      if !ModelFormComplete(formData) {
        return None;
      }
      var payload := ModelPayloadOf(formData);
      var error: Option<string>;
      if editingModel.Some? {
        error := db.UpdateCarModel(editingModel.value.id, payload, refusal);
      } else {
        error := db.InsertCarModel(payload, newId, now, refusal);
      }
      if error.Some? {
        toast := Some(ErrorToast("Error", error.value));
      } else {
        toast := Some(InfoToast(if editingModel.Some? then UpdatedTitle else CreatedTitle));
        StartFetch(db);
        CloseDialog(currentYear);
      }
    }

    /** `handleDelete`. A declined confirmation issues nothing and changes nothing. A confirmed one
        issues the delete; only a successful delete re-fetches. */
    method HandleDelete(db: Store.Backend, model: CarModel, confirmed: bool, refusal: Option<string>)
      returns (toast: Option<Toast>)
      requires db.Valid()
      modifies this, db
      ensures db.Valid()
      ensures !confirmed ==> toast.None? && unchanged(this) && unchanged(db)
      ensures confirmed ==>
        && toast.Some?
        && db.brands == old(db.brands)
        && (refusal.Some? ==>
              && toast.value == ErrorToast("Error", refusal.value)
              && db.requests == old(db.requests) + [Store.DeleteCarModel(model.id)]
              && db.carModels == old(db.carModels)
              && unchanged(this))
        && (refusal.None? ==>
              && toast.value == InfoToast(DeletedTitle)
              && db.requests == old(db.requests) + [Store.DeleteCarModel(model.id), Store.SelectCarModels, Store.SelectBrands]
              && db.carModels == old(db.carModels) - {model.id}
              && loading
              && models == old(models) && brands == old(brands)
              && isDialogOpen == old(isDialogOpen) && editingModel == old(editingModel)
              && formData == old(formData))
    {
      if !confirmed {
        return None;
      }
      var error := db.DeleteCarModel(model.id, refusal);
      if error.Some? {
        toast := Some(ErrorToast("Error", error.value));
      } else {
        toast := Some(InfoToast(DeletedTitle));
        StartFetch(db);
      }
    }
  }

  /** Opening a stored model for edit and submitting the form untouched: when the store accepts
      the update, a canonical row is stored exactly as it was. */
  method EditAndResubmit(page: AdminModelsPage, db: Store.Backend, id: Id, currentYear: int)
    requires db.Valid() && id in db.carModels
    requires ModelCanonical(db.carModels[id])
    requires db.carModels[id].name != "" && db.carModels[id].brandId != ""
    requires db.carModels[id].brandId in db.brands
    modifies page, db
    ensures db.carModels == old(db.carModels)
    ensures !page.isDialogOpen && page.editingModel.None?
  {
    var m := db.carModels[id];
    assert m.id == id;
    page.OpenEditDialog(m);
    var toast := page.HandleSubmit(db, "", "", currentYear, None);
    ModelEditRoundTrip(m);
    assert db.carModels == old(db.carModels)[id := m];
  }
}
