/** The admin dialogs' form buffers and the mappings between stored rows, form fields and write
    payloads. Nullable text columns appear in a form as text, with null shown as `''`; on
    submit an empty field is sent as null again (JavaScript's `value || null`). */
module Forms {
  import opened Entities
  import Store

  /** `value || null`. */
  function NullIfEmpty(s: string): (r: Option<string>)
    ensures r.None? <==> s == ""
    ensures r.Some? ==> r.value == s
  {
    if s == "" then None else Some(s)
  }

  /** `value || fallback` on a nullable text column: null and `''` both give the fallback. */
  function OrDefault(o: Option<string>, fallback: string): (r: string)
    ensures o.Some? && o.value != "" ==> r == o.value
    ensures o.None? || o.value == "" ==> r == fallback
  {
    if o.Some? && o.value != "" then o.value else fallback
  }

  /** `value || ''`. */
  function OrEmpty(o: Option<string>): string
  {
    OrDefault(o, "")
  }

  /** Text typed in a form survives the trip to the store and back. */
  lemma OrEmptyAfterNullIfEmpty(s: string)
    ensures OrEmpty(NullIfEmpty(s)) == s
  {
  }

  /** A stored nullable column survives the trip through the form exactly when it is not the
      empty string: `''` comes back as null. */
  lemma NullIfEmptyAfterOrEmpty(o: Option<string>)
    ensures NullIfEmpty(OrEmpty(o)) == (if o == Some("") then None else o)
    ensures NullIfEmpty(OrEmpty(o)) == o <==> o != Some("")
  {
  }

  /** A toast notification. */
  datatype Toast = Toast(title: string, description: Option<string>, destructive: bool)

  function ErrorToast(title: string, message: string): Toast
  {
    Toast(title, Some(message), true)
  }

  function InfoToast(title: string): Toast
  {
    Toast(title, None, false)
  }

  // ---------------------------------------------------------------------------
  // Car models

  const DefaultFuel: string := "Gasolina"
  const DefaultTransmission: string := "Automática"

  datatype ModelForm = ModelForm(
    brandId: Id,
    name: string,
    year: int,
    price: int,
    fuelType: string,
    transmission: string,
    description: string,
    imageUrl: string)

  /** The blank form: no brand, no name, the current year, price 0, the first fuel type and
      transmission, empty texts. */
  function DefaultModelForm(currentYear: int): (f: ModelForm)
    ensures f.brandId == "" && f.name == "" && f.year == currentYear && f.price == 0
    ensures f.fuelType == DefaultFuel && f.transmission == DefaultTransmission
    ensures f.description == "" && f.imageUrl == ""
  {
    ModelForm("", "", currentYear, 0, DefaultFuel, DefaultTransmission, "", "")
  }

  /** The browser blocks submission while a `required` control (brand, name) is empty. */
  predicate ModelFormComplete(f: ModelForm)
  {
    f.brandId != "" && f.name != ""
  }

  /** `modelData`: six fields copied, the two optional texts sent as null when empty. */
  function ModelPayloadOf(f: ModelForm): (p: Store.ModelPayload)
    ensures p.brandId == f.brandId && p.name == f.name && p.year == f.year && p.price == f.price
    ensures p.fuelType == f.fuelType && p.transmission == f.transmission
    ensures OrEmpty(p.description) == f.description && OrEmpty(p.imageUrl) == f.imageUrl
    ensures p.description != Some("") && p.imageUrl != Some("")
  {
    Store.ModelPayload(f.brandId, f.name, f.year, f.price, f.fuelType, f.transmission,
                       NullIfEmpty(f.description), NullIfEmpty(f.imageUrl))
  }

  /** The form `openEditDialog` fills from a stored model. */
  function ModelFormOf(m: CarModel): (f: ModelForm)
    ensures f.brandId == m.brandId && f.name == m.name && f.year == m.year && f.price == m.price
    ensures f.fuelType == if m.fuelType.None? || m.fuelType == Some("") then DefaultFuel else m.fuelType.value
    ensures f.transmission ==
      if m.transmission.None? || m.transmission == Some("") then DefaultTransmission else m.transmission.value
    ensures NullIfEmpty(f.description) == (if m.description == Some("") then None else m.description)
    ensures NullIfEmpty(f.imageUrl) == (if m.imageUrl == Some("") then None else m.imageUrl)
  {
    ModelForm(m.brandId, m.name, m.year, m.price,
              OrDefault(m.fuelType, DefaultFuel), OrDefault(m.transmission, DefaultTransmission),
              OrEmpty(m.description), OrEmpty(m.imageUrl))
  }

  /** A stored model that an unchanged edit writes back as it is: fuel type and transmission
      set and non-empty, and no optional text stored as `''`. */
  predicate ModelCanonical(m: CarModel)
  {
    m.fuelType.Some? && m.fuelType.value != "" &&
    m.transmission.Some? && m.transmission.value != "" &&
    m.description != Some("") && m.imageUrl != Some("")
  }

  /** Opening a model for edit and submitting without changes stores the row with the form's
      defaults filled in for a missing fuel type or transmission and `''` texts turned to null;
      the row is unchanged exactly when it was canonical. */
  lemma ModelEditRoundTrip(m: CarModel)
    ensures Store.PatchCarModel(m, ModelPayloadOf(ModelFormOf(m))) ==
      m.(fuelType := Some(OrDefault(m.fuelType, DefaultFuel)),
         transmission := Some(OrDefault(m.transmission, DefaultTransmission)),
         description := if m.description == Some("") then None else m.description,
         imageUrl := if m.imageUrl == Some("") then None else m.imageUrl)
    ensures Store.PatchCarModel(m, ModelPayloadOf(ModelFormOf(m))) == m <==> ModelCanonical(m)
  {
    var r := Store.PatchCarModel(m, ModelPayloadOf(ModelFormOf(m)));
    NullIfEmptyAfterOrEmpty(m.description);
    NullIfEmptyAfterOrEmpty(m.imageUrl);
    if r == m {
      assert r.fuelType == m.fuelType && r.transmission == m.transmission;
      assert r.description == m.description && r.imageUrl == m.imageUrl;
    }
  }

  /** A submitted form, stored and opened again for edit, shows the same fields (fuel type and
      transmission are chosen from non-empty options, so they are never empty). */
  lemma ModelFormRoundTrip(f: ModelForm, id: Id, createdAt: string)
    requires f.fuelType != "" && f.transmission != ""
    ensures ModelFormOf(Store.NewCarModel(id, createdAt, ModelPayloadOf(f))) == f
  {
    OrEmptyAfterNullIfEmpty(f.description);
    OrEmptyAfterNullIfEmpty(f.imageUrl);
  }

  // ---------------------------------------------------------------------------
  // Brands

  datatype BrandForm = BrandForm(name: string, description: string, logoUrl: string)

  function EmptyBrandForm(): (f: BrandForm)
    ensures f.name == "" && f.description == "" && f.logoUrl == ""
  {
    BrandForm("", "", "")
  }

  /** The browser blocks submission while the `required` name is empty. */
  predicate BrandFormComplete(f: BrandForm)
  {
    f.name != ""
  }

  /** `{ name, description || null, logo_url || null }`. */
  function BrandPayloadOf(f: BrandForm): (p: Store.BrandPayload)
    ensures p.name == f.name
    ensures OrEmpty(p.description) == f.description && OrEmpty(p.logoUrl) == f.logoUrl
    ensures p.description != Some("") && p.logoUrl != Some("")
  {
    Store.BrandPayload(f.name, NullIfEmpty(f.description), NullIfEmpty(f.logoUrl))
  }

  function BrandFormOf(b: Brand): (f: BrandForm)
    ensures f.name == b.name
    ensures NullIfEmpty(f.description) == (if b.description == Some("") then None else b.description)
    ensures NullIfEmpty(f.logoUrl) == (if b.logoUrl == Some("") then None else b.logoUrl)
  {
    BrandForm(b.name, OrEmpty(b.description), OrEmpty(b.logoUrl))
  }

  /** An unchanged brand edit writes back the same name and the same null or non-empty texts;
      only a stored `''` changes (to null). */
  lemma BrandEditRoundTrip(b: Brand)
    ensures Store.PatchBrand(b, BrandPayloadOf(BrandFormOf(b))) ==
      b.(description := if b.description == Some("") then None else b.description,
         logoUrl := if b.logoUrl == Some("") then None else b.logoUrl)
    ensures Store.PatchBrand(b, BrandPayloadOf(BrandFormOf(b))) == b <==>
      b.description != Some("") && b.logoUrl != Some("")
  {
    var r := Store.PatchBrand(b, BrandPayloadOf(BrandFormOf(b)));
    NullIfEmptyAfterOrEmpty(b.description);
    NullIfEmptyAfterOrEmpty(b.logoUrl);
    if r == b {
      assert r.description == b.description && r.logoUrl == b.logoUrl;
    }
  }

  lemma BrandFormRoundTrip(f: BrandForm, id: Id, createdAt: string)
    ensures BrandFormOf(Store.NewBrand(id, createdAt, BrandPayloadOf(f))) == f
  {
    OrEmptyAfterNullIfEmpty(f.description);
    OrEmptyAfterNullIfEmpty(f.logoUrl);
  }
}
