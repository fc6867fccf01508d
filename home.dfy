/** The home page (`/`): brand pills that filter the catalogue section, and its count line. */
module Home {
  import opened Entities
  import Catalog

  /** The brand ids of the loaded brands are pairwise distinct. */
  ghost predicate DistinctIds(brands: seq<Brand>)
  {
    forall i, j :: 0 <= i < j < |brands| ==> brands[i].id != brands[j].id
  }

  /** Some loaded brand has id `id`. */
  ghost predicate HasBrand(brands: seq<Brand>, id: Id)
  {
    exists i :: 0 <= i < |brands| && brands[i].id == id
  }

  /** How many brand pills are drawn highlighted (`selectedBrand === brand.id`). */
  function HighlightedBrandPills(brands: seq<Brand>, selected: string): nat
  {
    if brands == [] then 0
    else (if brands[0].id == selected then 1 else 0) + HighlightedBrandPills(brands[1..], selected)
  }

  /** How many pills are highlighted in all: the `Todas` pill when the selection is `"all"`,
      plus the brand pills. */
  function HighlightedPills(brands: seq<Brand>, selected: string): nat
  {
    (if selected == Catalog.AllBrands then 1 else 0) + HighlightedBrandPills(brands, selected)
  }

  lemma {:induction false} HighlightedBrandPillsCount(brands: seq<Brand>, selected: string)
    requires DistinctIds(brands)
    ensures HighlightedBrandPills(brands, selected) == if HasBrand(brands, selected) then 1 else 0
  {
    if brands != [] {
      var rest := brands[1..];
      HighlightedBrandPillsCount(rest, selected);
      if HasBrand(rest, selected) {
        var k :| 0 <= k < |rest| && rest[k].id == selected;
        assert brands[k + 1].id == selected;
        assert brands[0].id != selected;
      }
      if brands[0].id != selected && HasBrand(brands, selected) {
        var k :| 0 <= k < |brands| && brands[k].id == selected;
        assert rest[k - 1].id == selected;
      }
    }
  }

  /** Exactly one pill is highlighted when the selection is `"all"` or a loaded brand (and no
      brand has the id `"all"`); none when the selection names no loaded brand. */
  lemma ExactlyOnePillHighlighted(brands: seq<Brand>, selected: string)
    requires DistinctIds(brands)
    requires !HasBrand(brands, Catalog.AllBrands)
    ensures HighlightedPills(brands, selected) == 1 <==>
      selected == Catalog.AllBrands || HasBrand(brands, selected)
    ensures HighlightedPills(brands, selected) <= 1
  {
    HighlightedBrandPillsCount(brands, selected);
  }

  class HomePage {
    var brands: seq<Brand>
    var cars: seq<CatalogCar>
    var selectedBrand: string
    var loading: bool

    constructor ()
      ensures brands == [] && cars == [] && selectedBrand == Catalog.AllBrands && loading
    {
      brands := [];
      cars := [];
      selectedBrand := Catalog.AllBrands;
      loading := true;
    }

    /** The fetch resolved: each list is replaced only when its response carried data. */
    method FetchCompleted(brandsRes: Option<seq<Brand>>, carsRes: Option<seq<CatalogCar>>)
      modifies this
      ensures brands == (if brandsRes.Some? then brandsRes.value else old(brands))
      ensures cars == (if carsRes.Some? then carsRes.value else old(cars))
      ensures selectedBrand == old(selectedBrand) && !loading
    {
      if brandsRes.Some? { brands := brandsRes.value; }
      if carsRes.Some? { cars := carsRes.value; }
      loading := false;
    }

    /** Clicking the `Todas` pill. */
    method ClickAll()
      modifies this`selectedBrand
      ensures selectedBrand == Catalog.AllBrands
      ensures HighlightedPills(brands, selectedBrand) >= 1
    {
      selectedBrand := Catalog.AllBrands;
    }

    /** Clicking the pill of the `i`-th loaded brand: with distinct ids, that pill and no other
        is highlighted. */
    method ClickBrand(i: nat)
      requires i < |brands|
      modifies this`selectedBrand
      ensures selectedBrand == brands[i].id
      ensures DistinctIds(brands) && !HasBrand(brands, Catalog.AllBrands) ==>
        HighlightedPills(brands, selectedBrand) == 1
    {
      selectedBrand := brands[i].id;
      if DistinctIds(brands) && !HasBrand(brands, Catalog.AllBrands) {
        ExactlyOnePillHighlighted(brands, selectedBrand);
      }
    }

    /** `filteredCars`: the fetched list for `"all"`, otherwise exactly the cars of the
        selected brand, in fetched order. The count line shows its length. */
    function FilteredCars(): (r: seq<CatalogCar>)
      reads this
      ensures selectedBrand == Catalog.AllBrands ==> r == cars
      ensures selectedBrand != Catalog.AllBrands ==> forall x ::
        multiset(r)[x] == if x.model.brandId == selectedBrand then multiset(cars)[x] else 0
      ensures Catalog.SubsequenceOf(r, cars)
    {
      Catalog.ByBrandSpec(cars, selectedBrand);
      Catalog.ByBrand(cars, selectedBrand)
    }
  }
}
