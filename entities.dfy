/** Row shapes of the dealership's tables, as the pages receive them from the store.
    Nullable columns are `Option`s; ids and timestamps are opaque strings. */
module Entities {

  datatype Option<T> = None | Some(value: T)

  /** Opaque row identifier (a UUID in the store). */
  type Id = string

  datatype Brand = Brand(
    id: Id,
    name: string,
    logoUrl: Option<string>,
    description: Option<string>,
    createdAt: string)

  /** A car model row. `price` is a decimal column; the model keeps it as an integer. */
  datatype CarModel = CarModel(
    id: Id,
    brandId: Id,
    name: string,
    year: int,
    price: int,
    imageUrl: Option<string>,
    description: Option<string>,
    fuelType: Option<string>,
    transmission: Option<string>,
    createdAt: string)

  /** A car model row fetched with the joined `brands(name)` column. */
  datatype CatalogCar = CatalogCar(model: CarModel, brandName: Option<string>)

  datatype Profile = Profile(
    id: Id,
    userId: Id,
    email: Option<string>,
    fullName: Option<string>,
    createdAt: string)

  datatype Role = Admin | User

  datatype UserRole = UserRole(id: Id, userId: Id, role: Role)
}
