/** The remote table store behind the pages, reduced to what the pages rely on: two tables
    keyed by id, the write payloads the admin forms send, and a log of every request issued.
    Whether a request is refused (network, permissions, …) is decided outside and given as
    `refusal`; on top of that the store enforces the unique primary key, the unique brand name
    and the car model's reference to an existing brand. */
module Store {
  import opened Entities
  import Text

  /** `modelData` of the car model form. Fuel type and transmission are always sent as text. */
  datatype ModelPayload = ModelPayload(
    brandId: Id,
    name: string,
    year: int,
    price: int,
    fuelType: string,
    transmission: string,
    description: Option<string>,
    imageUrl: Option<string>)

  /** The brand form's insert and update payload. */
  datatype BrandPayload = BrandPayload(
    name: string,
    description: Option<string>,
    logoUrl: Option<string>)

  /** A call the pages make on the store. */
  datatype Request =
    | SelectCarModels
    | SelectBrands
    | InsertCarModel(model: ModelPayload)
    | UpdateCarModel(id: Id, model: ModelPayload)
    | DeleteCarModel(id: Id)
    | InsertBrand(brand: BrandPayload)
    | UpdateBrand(id: Id, brand: BrandPayload)
    | DeleteBrand(id: Id)

  predicate IsWrite(r: Request)
  {
    !r.SelectCarModels? && !r.SelectBrands?
  }

  const DuplicateIdMessage: string := "duplicate" + " key value violates unique constraint \"pkey\""
  const DuplicateNameMessage: string := "duplicate" + " key value violates unique constraint \"brands_name_key\""
  const MissingBrandMessage: string := "insert or update on table \"car_models\" violates foreign key constraint"

  /** The row an accepted car model insert stores. */
  function NewCarModel(id: Id, createdAt: string, p: ModelPayload): (m: CarModel)
    ensures m.id == id && m.createdAt == createdAt
    ensures m.fuelType == Some(p.fuelType) && m.transmission == Some(p.transmission)
  {
    CarModel(id, p.brandId, p.name, p.year, p.price, p.imageUrl, p.description,
             Some(p.fuelType), Some(p.transmission), createdAt)
  }

  /** An accepted update: the payload's columns replace the row's, id and creation time stay. */
  function PatchCarModel(m: CarModel, p: ModelPayload): (r: CarModel)
    ensures r == NewCarModel(m.id, m.createdAt, p)
  {
    m.(brandId := p.brandId, name := p.name, year := p.year, price := p.price,
       fuelType := Some(p.fuelType), transmission := Some(p.transmission),
       description := p.description, imageUrl := p.imageUrl)
  }

  function NewBrand(id: Id, createdAt: string, p: BrandPayload): (b: Brand)
    ensures b.id == id && b.createdAt == createdAt
  {
    Brand(id, p.name, p.logoUrl, p.description, createdAt)
  }

  function PatchBrand(b: Brand, p: BrandPayload): (r: Brand)
    ensures r == NewBrand(b.id, b.createdAt, p)
  {
    b.(name := p.name, description := p.description, logoUrl := p.logoUrl)
  }

  /** Some brand other than `except` is called `name`. */
  predicate NameTaken(brands: map<Id, Brand>, name: string, except: Option<Id>)
  {
    exists id :: id in brands && brands[id].name == name && Some(id) != except
  }

  /** The store holds at most one brand per name. */
  ghost predicate UniqueNames(brands: map<Id, Brand>)
  {
    forall a, b :: a in brands && b in brands && brands[a].name == brands[b].name ==> a == b
  }

  /** Every row is stored under its own id. */
  ghost predicate KeyedById(models: map<Id, CarModel>, brands: map<Id, Brand>)
  {
    (forall id :: id in models ==> models[id].id == id) &&
    (forall id :: id in brands ==> brands[id].id == id)
  }

  /** The store's answer to a car model write that was not refused from outside. */
  function CarModelWriteError(brands: map<Id, Brand>, p: ModelPayload): Option<string>
  {
    if p.brandId !in brands then Some(MissingBrandMessage) else None
  }

  /** The error, if any, the store answers a car model insert with. */
  function InsertCarModelOutcome(models: map<Id, CarModel>, brands: map<Id, Brand>, id: Id, p: ModelPayload,
                                 refusal: Option<string>): Option<string>
  {
    if refusal.Some? then refusal
    else if id in models then Some(DuplicateIdMessage)
    else CarModelWriteError(brands, p)
  }

  /** The error, if any, the store answers a car model update with. An update that matches no
      row writes nothing, so no foreign key is checked. */
  function UpdateCarModelOutcome(models: map<Id, CarModel>, brands: map<Id, Brand>, id: Id, p: ModelPayload,
                                 refusal: Option<string>): Option<string>
  {
    if refusal.Some? then refusal
    else if id in models then CarModelWriteError(brands, p)
    else None
  }

  function InsertBrandOutcome(brands: map<Id, Brand>, id: Id, p: BrandPayload, refusal: Option<string>): Option<string>
  {
    if refusal.Some? then refusal
    else if id in brands then Some(DuplicateIdMessage)
    else if NameTaken(brands, p.name, None) then Some(DuplicateNameMessage)
    else None
  }

  function UpdateBrandOutcome(brands: map<Id, Brand>, id: Id, p: BrandPayload, refusal: Option<string>): Option<string>
  {
    if refusal.Some? then refusal
    else if id in brands && NameTaken(brands, p.name, Some(id)) then Some(DuplicateNameMessage)
    else None
  }

  /** A select response lists the car model table: every listed row is stored under its id, and
      every stored row is listed. */
  ghost predicate ListsCarModels(table: map<Id, CarModel>, rows: seq<CatalogCar>)
  {
    (forall i :: 0 <= i < |rows| ==> rows[i].model.id in table && table[rows[i].model.id] == rows[i].model) &&
    (forall id :: id in table ==> exists i :: 0 <= i < |rows| && rows[i].model == table[id])
  }

  ghost predicate ListsBrands(table: map<Id, Brand>, rows: seq<Brand>)
  {
    (forall i :: 0 <= i < |rows| ==> rows[i].id in table && table[rows[i].id] == rows[i]) &&
    (forall id :: id in table ==> exists i :: 0 <= i < |rows| && rows[i] == table[id])
  }

  /** After a row is deleted, no listing of the table shows it. */
  lemma DeletedCarModelNotListed(table: map<Id, CarModel>, id: Id, rows: seq<CatalogCar>)
    requires ListsCarModels(table - {id}, rows)
    ensures forall i :: 0 <= i < |rows| ==> rows[i].model.id != id
  {
  }

  /** After a row is stored, every listing of the table shows it. */
  lemma StoredCarModelListed(table: map<Id, CarModel>, m: CarModel, rows: seq<CatalogCar>)
    requires ListsCarModels(table[m.id := m], rows)
    ensures exists i :: 0 <= i < |rows| && rows[i].model == m
  {
    assert m.id in table[m.id := m];
  }

  lemma DeletedBrandNotListed(table: map<Id, Brand>, id: Id, rows: seq<Brand>)
    requires ListsBrands(table - {id}, rows)
    ensures forall i :: 0 <= i < |rows| ==> rows[i].id != id
  {
  }

  lemma StoredBrandListed(table: map<Id, Brand>, b: Brand, rows: seq<Brand>)
    requires ListsBrands(table[b.id := b], rows)
    ensures exists i :: 0 <= i < |rows| && rows[i] == b
  {
    assert b.id in table[b.id := b];
  }

  class Backend {
    var carModels: map<Id, CarModel>
    var brands: map<Id, Brand>
    /** Every request issued, oldest first. */
    var requests: seq<Request>

    ghost predicate Valid()
      reads this
    {
      KeyedById(carModels, brands) && UniqueNames(brands)
    }

    /** The database as the schema allows it: every row stored under its own id, brand names
        unique. */
    constructor (models: map<Id, CarModel>, brandRows: map<Id, Brand>)
      requires KeyedById(models, brandRows) && UniqueNames(brandRows)
      ensures Valid()
      ensures carModels == models && brands == brandRows && requests == []
    {
      carModels := models;
      brands := brandRows;
      requests := [];
    }

    /** Issuing a select; the response arrives later and is handed to the page. */
    method Select(r: Request)
      requires !IsWrite(r)
      modifies this`requests
      ensures requests == old(requests) + [r]
    {
      requests := requests + [r];
    }

    method InsertCarModel(p: ModelPayload, id: Id, createdAt: string, refusal: Option<string>)
      returns (error: Option<string>)
      requires Valid()
      modifies this
      ensures Valid()
      ensures requests == old(requests) + [Request.InsertCarModel(p)]
      ensures error == InsertCarModelOutcome(old(carModels), old(brands), id, p, refusal)
      ensures carModels ==
        if error.None? then old(carModels)[id := NewCarModel(id, createdAt, p)] else old(carModels)
      ensures brands == old(brands)
    {
      requests := requests + [Request.InsertCarModel(p)];
      if refusal.Some? {
        error := refusal;
      } else if id in carModels {
        error := Some(DuplicateIdMessage);
      } else {
        error := CarModelWriteError(brands, p);
      }
      if error.None? {
        carModels := carModels[id := NewCarModel(id, createdAt, p)];
      }
    }

    /** `update(p).eq('id', id)`: an id that matches no row is not an error and changes nothing. */
    method UpdateCarModel(id: Id, p: ModelPayload, refusal: Option<string>) returns (error: Option<string>)
      requires Valid()
      modifies this
      ensures Valid()
      ensures requests == old(requests) + [Request.UpdateCarModel(id, p)]
      ensures error == UpdateCarModelOutcome(old(carModels), old(brands), id, p, refusal)
      ensures carModels ==
        if error.None? && id in old(carModels)
        then old(carModels)[id := PatchCarModel(old(carModels)[id], p)]
        else old(carModels)
      ensures brands == old(brands)
    {
      requests := requests + [Request.UpdateCarModel(id, p)];
      error := if refusal.Some? then refusal else if id in carModels then CarModelWriteError(brands, p) else None;
      if error.None? && id in carModels {
        carModels := carModels[id := PatchCarModel(carModels[id], p)];
      }
    }

    method DeleteCarModel(id: Id, refusal: Option<string>) returns (error: Option<string>)
      requires Valid()
      modifies this
      ensures Valid()
      ensures requests == old(requests) + [Request.DeleteCarModel(id)]
      ensures error == refusal
      ensures carModels == if error.None? then old(carModels) - {id} else old(carModels)
      ensures brands == old(brands)
    {
      requests := requests + [Request.DeleteCarModel(id)];
      error := refusal;
      if error.None? {
        carModels := carModels - {id};
      }
    }

    method InsertBrand(p: BrandPayload, id: Id, createdAt: string, refusal: Option<string>)
      returns (error: Option<string>)
      requires Valid()
      modifies this
      ensures Valid()
      ensures requests == old(requests) + [Request.InsertBrand(p)]
      ensures error == InsertBrandOutcome(old(brands), id, p, refusal)
      ensures brands == if error.None? then old(brands)[id := NewBrand(id, createdAt, p)] else old(brands)
      ensures carModels == old(carModels)
    {
      requests := requests + [Request.InsertBrand(p)];
      if refusal.Some? {
        error := refusal;
      } else if id in brands {
        error := Some(DuplicateIdMessage);
      } else if NameTaken(brands, p.name, None) {
        error := Some(DuplicateNameMessage);
      } else {
        error := None;
      }
      if error.None? {
        brands := brands[id := NewBrand(id, createdAt, p)];
      }
    }

    method UpdateBrand(id: Id, p: BrandPayload, refusal: Option<string>) returns (error: Option<string>)
      requires Valid()
      modifies this
      ensures Valid()
      ensures requests == old(requests) + [Request.UpdateBrand(id, p)]
      ensures error == UpdateBrandOutcome(old(brands), id, p, refusal)
      ensures brands ==
        if error.None? && id in old(brands) then old(brands)[id := PatchBrand(old(brands)[id], p)]
        else old(brands)
      ensures carModels == old(carModels)
    {
      requests := requests + [Request.UpdateBrand(id, p)];
      if refusal.Some? {
        error := refusal;
      } else if id in brands && NameTaken(brands, p.name, Some(id)) {
        error := Some(DuplicateNameMessage);
      } else {
        error := None;
      }
      if error.None? && id in brands {
        brands := brands[id := PatchBrand(brands[id], p)];
      }
    }

    /** Deleting a brand does not look at the car models that reference it. */
    method DeleteBrand(id: Id, refusal: Option<string>) returns (error: Option<string>)
      requires Valid()
      modifies this
      ensures Valid()
      ensures requests == old(requests) + [Request.DeleteBrand(id)]
      ensures error == refusal
      ensures brands == if error.None? then old(brands) - {id} else old(brands)
      ensures carModels == old(carModels)
    {
      requests := requests + [Request.DeleteBrand(id)];
      error := refusal;
      if error.None? {
        brands := brands - {id};
      }
    }
  }

  /** Both name-conflict messages the store produces mention `duplicate`. */
  lemma DuplicateMessagesSayDuplicate()
    ensures Text.Contains(DuplicateNameMessage, "duplicate")
    ensures Text.Contains(DuplicateIdMessage, "duplicate")
  {
    Text.ContainsPrefix("duplicate", " key value violates unique constraint \"brands_name_key\"");
    Text.ContainsPrefix("duplicate", " key value violates unique constraint \"pkey\"");
  }
}
