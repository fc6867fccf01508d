/** The brand editor of the back office (`/admin/marcas`): the same dialog pattern as the car
    model editor, over the brands table, with a friendlier message for a taken name on create. */
module AdminBrands {
  import opened Entities
  import opened Forms
  import Store
  import Text

  const CreatedTitle: string := "Marca creada correctamente"
  const UpdatedTitle: string := "Marca actualizada correctamente"
  const DeletedTitle: string := "Marca eliminada correctamente"
  const LoadFailedMessage: string := "No se pudieron cargar las marcas"
  const NameExistsMessage: string := "Ya existe una marca con ese nombre"

  /** The description of the error toast after a failed create: any message mentioning
      `duplicate` is replaced by the taken-name message, any other is shown as it came. */
  function InsertErrorText(message: string): (r: string)
    ensures Text.Contains(message, "duplicate") ==> r == NameExistsMessage
    ensures !Text.Contains(message, "duplicate") ==> r == message
  {
    if Text.Contains(message, "duplicate") then NameExistsMessage else message
  }

  /** Creating a brand under a name the store already holds fails, and the toast says the name is
      taken rather than showing the store's message. */
  lemma TakenNameShowsNameExists(brands: map<Id, Brand>, id: Id, p: Store.BrandPayload)
    requires id !in brands && Store.NameTaken(brands, p.name, None)
    ensures Store.InsertBrandOutcome(brands, id, p, None) == Some(Store.DuplicateNameMessage)
    ensures InsertErrorText(Store.InsertBrandOutcome(brands, id, p, None).value) == NameExistsMessage
  {
    Store.DuplicateMessagesSayDuplicate();
  }

  /** The write a submit issues. */
  function SubmitRequest(editing: Option<Brand>, form: BrandForm): (r: Store.Request)
    ensures Store.IsWrite(r)
    ensures editing.Some? <==> r.UpdateBrand?
    ensures editing.None? <==> r.InsertBrand?
    ensures editing.Some? ==> r.id == editing.value.id
    ensures r.brand == BrandPayloadOf(form)
  {
    if editing.Some? then Store.UpdateBrand(editing.value.id, BrandPayloadOf(form))
    else Store.InsertBrand(BrandPayloadOf(form))
  }

  class AdminBrandsPage {
    var brands: seq<Brand>
    var loading: bool
    var isDialogOpen: bool
    var editingBrand: Option<Brand>
    var formData: BrandForm

    constructor ()
      ensures brands == [] && loading
      ensures !isDialogOpen && editingBrand.None? && formData == EmptyBrandForm()
    {
      brands := [];
      loading := true;
      isDialogOpen := false;
      editingBrand := None;
      formData := EmptyBrandForm();
    }

    /** `fetchBrands` up to the `await`. */
    method StartFetch(db: Store.Backend)
      modifies this`loading, db`requests
      ensures loading
      ensures db.requests == old(db.requests) + [Store.SelectBrands]
    {
      loading := true;
      db.Select(Store.SelectBrands);
    }

    /** `fetchBrands` after the `await`: data and error are looked at independently, so a
        response with both replaces the list and still shows the load-failure toast. */
    method FetchCompleted(data: Option<seq<Brand>>, error: Option<string>) returns (toast: Option<Toast>)
      modifies this`brands, this`loading
      ensures brands == (if data.Some? then data.value else old(brands))
      ensures toast.Some? <==> error.Some?
      ensures toast.Some? ==> toast.value == ErrorToast("Error", LoadFailedMessage)
      ensures !loading
    {
      if data.Some? { brands := data.value; }
      toast := None;
      if error.Some? {
        toast := Some(ErrorToast("Error", LoadFailedMessage));
      }
      loading := false;
    }

    /** `openEditDialog`. */
    method OpenEditDialog(brand: Brand)
      modifies this`editingBrand, this`formData, this`isDialogOpen
      ensures editingBrand == Some(brand) && formData == BrandFormOf(brand) && isDialogOpen
    {
      editingBrand := Some(brand);
      formData := BrandFormOf(brand);
      isDialogOpen := true;
    }

    /** `closeDialog`. */
    method CloseDialog()
      modifies this`editingBrand, this`formData, this`isDialogOpen
      ensures !isDialogOpen && editingBrand.None? && formData == EmptyBrandForm()
    {
      isDialogOpen := false;
      editingBrand := None;
      formData := EmptyBrandForm();
    }

    /** The "Nueva Marca" button: `closeDialog`, then the trigger opens the dialog. */
    method NewBrand()
      modifies this`editingBrand, this`formData, this`isDialogOpen
      ensures isDialogOpen && editingBrand.None? && formData == EmptyBrandForm()
    {
      CloseDialog();
      isDialogOpen := true;
    }

    method SetDialogOpen(open: bool)
      modifies this`isDialogOpen
      ensures isDialogOpen == open
    {
      isDialogOpen := open;
    }

    method EditForm(f: BrandForm)
      modifies this`formData
      ensures formData == f
    {
      formData := f;
    }

    /** `handleSubmit`. An update failure shows the store's message; a create failure shows it
        through `InsertErrorText`. On success the list is re-fetched and the dialog closed. */
    method HandleSubmit(db: Store.Backend, newId: Id, now: string, refusal: Option<string>)
      returns (toast: Option<Toast>)
      requires db.Valid()
      modifies this, db
      ensures db.Valid()
      ensures !BrandFormComplete(old(formData)) ==>
        toast.None? && unchanged(this) && unchanged(db)
      ensures BrandFormComplete(old(formData)) ==>
        var write := SubmitRequest(old(editingBrand), old(formData));
        var payload := BrandPayloadOf(old(formData));
        var error :=
          if old(editingBrand).Some? then Store.UpdateBrandOutcome(old(db.brands), old(editingBrand).value.id, payload, refusal)
          else Store.InsertBrandOutcome(old(db.brands), newId, payload, refusal);
        && db.carModels == old(db.carModels)
        && (error.Some? ==>
              && toast == Some(ErrorToast("Error",
                   if old(editingBrand).Some? then error.value else InsertErrorText(error.value)))
              && db.requests == old(db.requests) + [write]
              && db.brands == old(db.brands)
              && unchanged(this))
        && (error.None? ==>
              && toast == Some(InfoToast(if old(editingBrand).Some? then UpdatedTitle else CreatedTitle))
              && db.requests == old(db.requests) + [write, Store.SelectBrands]
              && db.brands ==
                   (if old(editingBrand).None?
                    then old(db.brands)[newId := Store.NewBrand(newId, now, payload)]
                    else var id := old(editingBrand).value.id;
                      if id in old(db.brands)
                      then old(db.brands)[id := Store.PatchBrand(old(db.brands)[id], payload)]
                      else old(db.brands))
              && loading && !isDialogOpen && editingBrand.None? && formData == EmptyBrandForm()
              && brands == old(brands))
    {
      if !BrandFormComplete(formData) {
        return None;
      }
      var payload := BrandPayloadOf(formData);
      if editingBrand.Some? {
        var error := db.UpdateBrand(editingBrand.value.id, payload, refusal);
        if error.Some? {
          toast := Some(ErrorToast("Error", error.value));
        } else {
          toast := Some(InfoToast(UpdatedTitle));
          StartFetch(db);
          CloseDialog();
        }
      } else {
        var error := db.InsertBrand(payload, newId, now, refusal);
        if error.Some? {
          toast := Some(ErrorToast("Error", InsertErrorText(error.value)));
        } else {
          toast := Some(InfoToast(CreatedTitle));
          StartFetch(db);
          CloseDialog();
        }
      }
    }

    /** `handleDelete`. A declined confirmation does nothing; a confirmed one issues the delete,
        and only a successful delete re-fetches. The car models table is not touched. */
    method HandleDelete(db: Store.Backend, brand: Brand, confirmed: bool, refusal: Option<string>)
      returns (toast: Option<Toast>)
      requires db.Valid()
      modifies this, db
      ensures db.Valid()
      ensures !confirmed ==> toast.None? && unchanged(this) && unchanged(db)
      ensures confirmed ==>
        && toast.Some?
        && db.carModels == old(db.carModels)
        && (refusal.Some? ==>
              && toast.value == ErrorToast("Error", refusal.value)
              && db.requests == old(db.requests) + [Store.DeleteBrand(brand.id)]
              && db.brands == old(db.brands)
              && unchanged(this))
        && (refusal.None? ==>
              && toast.value == InfoToast(DeletedTitle)
              && db.requests == old(db.requests) + [Store.DeleteBrand(brand.id), Store.SelectBrands]
              && db.brands == old(db.brands) - {brand.id}
              && loading && brands == old(brands)
              && isDialogOpen == old(isDialogOpen) && editingBrand == old(editingBrand)
              && formData == old(formData))
    {
      if !confirmed {
        return None;
      }
      var error := db.DeleteBrand(brand.id, refusal);
      if error.Some? {
        toast := Some(ErrorToast("Error", error.value));
      } else {
        toast := Some(InfoToast(DeletedTitle));
        StartFetch(db);
      }
    }
  }

  /** Creating a brand whose name is already stored: the table is unchanged, the dialog stays
      open with the typed form, and the toast says the name exists. */
  method CreateTakenName(page: AdminBrandsPage, db: Store.Backend, newId: Id, now: string)
    requires db.Valid() && page.editingBrand.None? && page.formData.name != ""
    requires newId !in db.brands && Store.NameTaken(db.brands, page.formData.name, None)
    modifies page, db
    ensures db.brands == old(db.brands)
    ensures page.formData == old(page.formData) && page.isDialogOpen == old(page.isDialogOpen)
  {
    var toast := page.HandleSubmit(db, newId, now, None);
    TakenNameShowsNameExists(old(db.brands), newId, BrandPayloadOf(old(page.formData)));
    assert toast == Some(ErrorToast("Error", NameExistsMessage));
  }
}
