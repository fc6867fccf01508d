/** The `/tienda` page: its state, the brand filter kept in step with the `brand` query
    parameter of the URL, and the list it shows. */
module Tienda {
  import opened Entities
  import Catalog

  /** The query parameter that carries the brand filter. */
  const BrandParam: string := "brand"

  /** `searchParams.get('brand') || 'all'`: an absent or empty parameter means every brand. */
  function BrandFromParams(params: map<string, string>): (b: string)
    ensures b == Catalog.AllBrands <==>
      BrandParam !in params || params[BrandParam] == "" || params[BrandParam] == Catalog.AllBrands
    ensures b != Catalog.AllBrands ==> BrandParam in params && params[BrandParam] == b
  {
    if BrandParam in params && params[BrandParam] != "" then params[BrandParam] else Catalog.AllBrands
  }

  /** The parameters after `handleBrandChange(value)` rewrote them in place. */
  function WithBrand(params: map<string, string>, value: string): (r: map<string, string>)
    ensures value == Catalog.AllBrands ==> BrandParam !in r
    ensures value != Catalog.AllBrands ==> BrandParam in r && r[BrandParam] == value
    ensures forall k :: k != BrandParam ==> (k in r <==> k in params)
    ensures forall k :: k != BrandParam && k in r ==> r[k] == params[k]
  {
    if value == Catalog.AllBrands then params - {BrandParam} else params[BrandParam := value]
  }

  /** Writing a brand into the URL and reading it back gives that brand again; `"all"` removes
      the parameter, which reads back as `"all"`. The empty value is the exception: it is
      written, but reads back as `"all"`. */
  lemma BrandParamRoundTrip(params: map<string, string>, value: string)
    ensures value != "" ==> BrandFromParams(WithBrand(params, value)) == value
    ensures value == "" ==> BrandFromParams(WithBrand(params, value)) == Catalog.AllBrands
    ensures value == Catalog.AllBrands ==> BrandParam !in WithBrand(params, value)
  {
  }

  class TiendaPage {
    /** The URL query string, as a map from parameter name to value. */
    var searchParams: map<string, string>
    var brands: seq<Brand>
    var cars: seq<CatalogCar>
    var selectedBrand: string
    var searchTerm: string
    var sortBy: string
    var loading: bool

    /** Mounting the page: the brand filter starts from the URL, and the fetch is under way. */
    constructor (params: map<string, string>)
      ensures searchParams == params
      ensures selectedBrand == BrandFromParams(params)
      ensures brands == [] && cars == []
      ensures searchTerm == "" && sortBy == "newest" && loading
    {
      searchParams := params;
      brands := [];
      cars := [];
      selectedBrand := BrandFromParams(params);
      searchTerm := "";
      sortBy := "newest";
      loading := true;
    }

    /** The fetch resolved: each list is replaced only when its response carried data. Cars arrive
        newest first; brands by name. */
    method FetchCompleted(brandsRes: Option<seq<Brand>>, carsRes: Option<seq<CatalogCar>>)
      modifies this
      ensures brands == (if brandsRes.Some? then brandsRes.value else old(brands))
      ensures cars == (if carsRes.Some? then carsRes.value else old(cars))
      ensures !loading
      ensures searchParams == old(searchParams) && selectedBrand == old(selectedBrand)
      ensures searchTerm == old(searchTerm) && sortBy == old(sortBy)
    {
      if brandsRes.Some? { brands := brandsRes.value; }
      if carsRes.Some? { cars := carsRes.value; }
      loading := false;
    }

    /** `handleBrandChange`: select the brand and write it to the URL, or remove the parameter
        for `"all"`; every other parameter is kept. */
    method HandleBrandChange(value: string)
      modifies this
      ensures selectedBrand == value
      ensures searchParams == WithBrand(old(searchParams), value)
      ensures value != "" ==> BrandFromParams(searchParams) == selectedBrand
      ensures brands == old(brands) && cars == old(cars)
      ensures searchTerm == old(searchTerm) && sortBy == old(sortBy) && loading == old(loading)
    {
      selectedBrand := value;
      if value == Catalog.AllBrands {
        searchParams := searchParams - {BrandParam};
      } else {
        searchParams := searchParams[BrandParam := value];
      }
      BrandParamRoundTrip(old(searchParams), value);
    }

    /** The effect that runs when the URL changes: a non-empty `brand` parameter overwrites the
        selection; a URL without one leaves the selection as it was. */
    method SyncFromParams(params: map<string, string>)
      modifies this
      ensures searchParams == params
      ensures selectedBrand ==
        if BrandParam in params && params[BrandParam] != "" then params[BrandParam] else old(selectedBrand)
      ensures brands == old(brands) && cars == old(cars)
      ensures searchTerm == old(searchTerm) && sortBy == old(sortBy) && loading == old(loading)
    {
      searchParams := params;
      if BrandParam in params && params[BrandParam] != "" {
        selectedBrand := params[BrandParam];
      }
    }

    /** Typing in the search box. */
    method SetSearchTerm(term: string)
      modifies this`searchTerm
      ensures searchTerm == term
    {
      searchTerm := term;
    }

    /** Choosing an entry of the sort selector. */
    method SetSortBy(key: string)
      modifies this`sortBy
      ensures sortBy == key
    {
      sortBy := key;
    }

    /** The list the page renders. It only reads the state: the fetched `cars` are never
        reordered, and what is shown is drawn from them. */
    function Visible(): (r: seq<CatalogCar>)
      reads this
      ensures |r| <= |cars|
      ensures forall x :: x in r ==> x in cars && Catalog.Selected(x, selectedBrand, searchTerm)
    {
      Catalog.ViewSpec(cars, selectedBrand, searchTerm, sortBy);
      var r := Catalog.View(cars, selectedBrand, searchTerm, sortBy);
      assert forall x :: x in r ==> multiset(r)[x] > 0;
      r
    }
  }

  /** Picking a brand, then the URL effect that the navigation triggers: the selection is the
      picked brand, and reloading the page from the new URL restores it. */
  method PickBrandThenNavigate(page: TiendaPage, value: string)
    requires value != ""
    modifies page
    ensures page.selectedBrand == value
    ensures BrandFromParams(page.searchParams) == value
  {
    page.HandleBrandChange(value);
    page.SyncFromParams(page.searchParams);
    var reloaded := new TiendaPage(page.searchParams);
    assert reloaded.selectedBrand == value;
  }
}
