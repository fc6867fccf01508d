/** The catalog query pipeline of the storefront (`/tienda`, and the brand pills of `/`):
    a brand filter, then a case-insensitive text search, then one of five orderings.
    Every step builds a new sequence; the fetched list itself is never reordered. */
module Catalog {
  import opened Entities
  import opened Text

  /** The brand selector's value meaning "no brand filter". */
  const AllBrands: string := "all"

  // ---------------------------------------------------------------------------
  // Filtering

  /** `Array.prototype.filter`: the elements of `s` that satisfy `keep`, in order. */
  function Filter<T>(s: seq<T>, keep: T -> bool): (r: seq<T>)
    ensures |r| <= |s|
    ensures forall x :: x in r ==> x in s && keep(x)
  {
    if s == [] then []
    else (if keep(s[0]) then [s[0]] else []) + Filter(s[1..], keep)
  }

  /** `sub` is obtained from `s` by deleting elements: relative order kept, nothing invented. */
  ghost predicate SubsequenceOf<T>(sub: seq<T>, s: seq<T>)
    decreases |s|
  {
    sub == [] ||
    (s != [] && ((sub[0] == s[0] && SubsequenceOf(sub[1..], s[1..])) || SubsequenceOf(sub, s[1..])))
  }

  lemma {:induction false} FilterIsSubsequence<T>(s: seq<T>, keep: T -> bool)
    ensures SubsequenceOf(Filter(s, keep), s)
  {
    if s != [] {
      FilterIsSubsequence(s[1..], keep);
      if keep(s[0]) {
        assert Filter(s, keep) == [s[0]] + Filter(s[1..], keep);
        assert (Filter(s, keep))[1..] == Filter(s[1..], keep);
      } else {
        assert Filter(s, keep) == Filter(s[1..], keep);
      }
    }
  }

  /** Every occurrence of a kept element survives, every occurrence of a dropped one goes. */
  lemma {:induction false} FilterCounts<T>(s: seq<T>, keep: T -> bool, x: T)
    ensures multiset(Filter(s, keep))[x] == if keep(x) then multiset(s)[x] else 0
  {
    if s != [] {
      FilterCounts(s[1..], keep, x);
      assert s == [s[0]] + s[1..];
    }
  }

  /** A filter that keeps every element returns its input unchanged. */
  lemma {:induction false} FilterKeepsAll<T>(s: seq<T>, keep: T -> bool)
    requires forall i :: 0 <= i < |s| ==> keep(s[i])
    ensures Filter(s, keep) == s
  {
    if s != [] {
      FilterKeepsAll(s[1..], keep);
      assert s == [s[0]] + s[1..];
    }
  }

  // ---------------------------------------------------------------------------
  // The brand step (also the whole filter of the home page)

  /** The brand step: `"all"` keeps everything, any other value keeps the cars with that `brand_id`. */
  function ByBrand(cars: seq<CatalogCar>, selected: string): seq<CatalogCar>
  {
    if selected == AllBrands then cars
    else Filter(cars, (c: CatalogCar) => c.model.brandId == selected)
  }

  /** The brand step keeps exactly the cars of the selected brand, with their multiplicity,
      as a subsequence of the input; `"all"` is the identity. */
  lemma ByBrandSpec(cars: seq<CatalogCar>, selected: string)
    ensures selected == AllBrands ==> ByBrand(cars, selected) == cars
    ensures selected != AllBrands ==> forall x ::
      multiset(ByBrand(cars, selected))[x] == if x.model.brandId == selected then multiset(cars)[x] else 0
    ensures SubsequenceOf(ByBrand(cars, selected), cars)
  {
    if selected != AllBrands {
      var keep := (c: CatalogCar) => c.model.brandId == selected;
      forall x ensures multiset(Filter(cars, keep))[x] == if keep(x) then multiset(cars)[x] else 0 {
        FilterCounts(cars, keep, x);
      }
      FilterIsSubsequence(cars, keep);
    } else {
      FilterIsSubsequence(cars, _ => true);
      FilterKeepsAll(cars, _ => true);
    }
  }

  /** Selecting a brand id that no car carries gives an empty list, not an error. */
  lemma ByBrandUnknown(cars: seq<CatalogCar>, selected: string)
    requires selected != AllBrands
    requires forall i :: 0 <= i < |cars| ==> cars[i].model.brandId != selected
    ensures ByBrand(cars, selected) == []
  {
    var r := ByBrand(cars, selected);
    ByBrandSpec(cars, selected);
    forall x: CatalogCar ensures multiset(r)[x] == 0 {
      if x.model.brandId == selected {
        assert x !in cars;
      }
    }
    assert multiset(r) == multiset{};
    assert |r| == |multiset(r)|;
  }

  // ---------------------------------------------------------------------------
  // The search step

  /** The search predicate: the lower-cased term occurs in the lower-cased car name, or in the
      lower-cased joined brand name when the join produced one. */
  predicate MatchesTerm(c: CatalogCar, term: string)
  {
    Contains(Lower(c.model.name), Lower(term)) ||
    (c.brandName.Some? && Contains(Lower(c.brandName.value), Lower(term)))
  }

  /** The search step: an empty term filters nothing. */
  function BySearch(cars: seq<CatalogCar>, term: string): seq<CatalogCar>
  {
    if term == "" then cars
    else Filter(cars, (c: CatalogCar) => MatchesTerm(c, term))
  }

  /** The search step keeps exactly the matching cars, with their multiplicity, as a subsequence
      of its input; an empty term keeps everything (every car also matches the empty term). */
  lemma BySearchSpec(cars: seq<CatalogCar>, term: string)
    ensures term == "" ==> BySearch(cars, term) == cars && forall x :: MatchesTerm(x, term)
    ensures forall x ::
      multiset(BySearch(cars, term))[x] == if MatchesTerm(x, term) then multiset(cars)[x] else 0
    ensures SubsequenceOf(BySearch(cars, term), cars)
  {
    var keep := (c: CatalogCar) => MatchesTerm(c, term);
    if term == "" {
      forall c ensures MatchesTerm(c, term) {
        ContainsEmpty(Lower(c.model.name));
      }
      FilterKeepsAll(cars, keep);
    }
    forall x ensures multiset(Filter(cars, keep))[x] == if keep(x) then multiset(cars)[x] else 0 {
      FilterCounts(cars, keep, x);
    }
    FilterIsSubsequence(cars, keep);
  }

  // ---------------------------------------------------------------------------
  // Ordering

  /** The five entries of the sort selector. */
  datatype SortKey = Newest | PriceAsc | PriceDesc | NameAsc | YearDesc

  /** The `switch (sortBy)`: every value other than the four sorting keys falls to the
      default branch, which leaves the order alone. */
  function ParseSortKey(s: string): (k: SortKey)
    ensures k == PriceAsc <==> s == "price-asc"
    ensures k == PriceDesc <==> s == "price-desc"
    ensures k == NameAsc <==> s == "name"
    ensures k == YearDesc <==> s == "year"
  {
    if s == "price-asc" then PriceAsc
    else if s == "price-desc" then PriceDesc
    else if s == "name" then NameAsc
    else if s == "year" then YearDesc
    else Newest
  }

  /** `a.localeCompare(b)`, approximated by lexicographic order on character codes. */
  function NameCompare(a: string, b: string): int
  {
    if a == [] && b == [] then 0
    else if a == [] then -1
    else if b == [] then 1
    else if a[0] < b[0] then -1
    else if a[0] > b[0] then 1
    else NameCompare(a[1..], b[1..])
  }

  /** Swapping the arguments of the name comparison flips its sign. */
  lemma {:induction false} NameCompareAntisymmetric(a: string, b: string)
    ensures NameCompare(b, a) == -NameCompare(a, b)
  {
    if a != [] && b != [] && a[0] == b[0] {
      NameCompareAntisymmetric(a[1..], b[1..]);
    }
  }

  lemma {:induction false} NameCompareTransitive(a: string, b: string, c: string)
    requires NameCompare(a, b) <= 0 && NameCompare(b, c) <= 0
    ensures NameCompare(a, c) <= 0
  {
    if a != [] && b != [] && c != [] && a[0] == b[0] && b[0] == c[0] {
      NameCompareTransitive(a[1..], b[1..], c[1..]);
    }
  }

  /** The comparator each sort key hands to `Array.prototype.sort`. */
  function Compare(key: SortKey, a: CatalogCar, b: CatalogCar): int
  {
    match key
    case PriceAsc => a.model.price - b.model.price
    case PriceDesc => b.model.price - a.model.price
    case NameAsc => NameCompare(a.model.name, b.model.name)
    case YearDesc => b.model.year - a.model.year
    case Newest => 0
  }

  /** `a` may stand before `b` in a sorted result. */
  predicate Leq(key: SortKey, a: CatalogCar, b: CatalogCar)
  {
    Compare(key, a, b) <= 0
  }

  /** Every comparator is a total preorder. */
  lemma LeqTotal(key: SortKey, a: CatalogCar, b: CatalogCar)
    ensures Leq(key, a, b) || Leq(key, b, a)
  {
    if key == NameAsc {
      NameCompareAntisymmetric(a.model.name, b.model.name);
    }
  }

  lemma LeqTransitive(key: SortKey, a: CatalogCar, b: CatalogCar, c: CatalogCar)
    requires Leq(key, a, b) && Leq(key, b, c)
    ensures Leq(key, a, c)
  {
    if key == NameAsc {
      NameCompareTransitive(a.model.name, b.model.name, c.model.name);
    }
  }

  ghost predicate Sorted(key: SortKey, s: seq<CatalogCar>)
  {
    forall i, j :: 0 <= i < j < |s| ==> Leq(key, s[i], s[j])
  }

  /** Inserts `x` before the first element it may precede, so that it stays ahead of the
      elements it ties with (they came after it in the input). */
  function Insert(key: SortKey, x: CatalogCar, s: seq<CatalogCar>): seq<CatalogCar>
  {
    if s == [] then [x]
    else if Leq(key, x, s[0]) then [x] + s
    else [s[0]] + Insert(key, x, s[1..])
  }

  /** The stable sort `[...cars].sort(cmp)`. For a comparator that is a total preorder every
      stable sort yields this same sequence. */
  function SortBy(key: SortKey, s: seq<CatalogCar>): seq<CatalogCar>
  {
    if s == [] then [] else Insert(key, s[0], SortBy(key, s[1..]))
  }

  lemma {:induction false} InsertPermutes(key: SortKey, x: CatalogCar, s: seq<CatalogCar>)
    ensures multiset(Insert(key, x, s)) == multiset(s) + multiset{x}
  {
    if s != [] && !Leq(key, x, s[0]) {
      InsertPermutes(key, x, s[1..]);
      assert s == [s[0]] + s[1..];
    }
  }

  lemma {:induction false} InsertSorted(key: SortKey, x: CatalogCar, s: seq<CatalogCar>)
    requires Sorted(key, s)
    ensures Sorted(key, Insert(key, x, s))
  {
    if s == [] {
    } else if Leq(key, x, s[0]) {
      forall j | 0 <= j < |s| ensures Leq(key, x, s[j]) {
        if j > 0 { LeqTransitive(key, x, s[0], s[j]); }
      }
    } else {
      LeqTotal(key, x, s[0]);
      InsertSorted(key, x, s[1..]);
      InsertPermutes(key, x, s[1..]);
      var t := Insert(key, x, s[1..]);
      forall j | 0 <= j < |t| ensures Leq(key, s[0], t[j]) {
        assert t[j] in multiset(t);
        if t[j] != x {
          assert t[j] in multiset(s[1..]);
          var k :| 0 <= k < |s[1..]| && s[1..][k] == t[j];
          assert s[k + 1] == t[j];
        }
      }
    }
  }

  lemma {:induction false} SortByPermutes(key: SortKey, s: seq<CatalogCar>)
    ensures multiset(SortBy(key, s)) == multiset(s)
  {
    if s != [] {
      SortByPermutes(key, s[1..]);
      InsertPermutes(key, s[0], SortBy(key, s[1..]));
      assert s == [s[0]] + s[1..];
    }
  }

  lemma {:induction false} SortBySorted(key: SortKey, s: seq<CatalogCar>)
    ensures Sorted(key, SortBy(key, s))
  {
    if s != [] {
      SortBySorted(key, s[1..]);
      InsertSorted(key, s[0], SortBy(key, s[1..]));
    }
  }

  /** Sorting by any key yields a permutation of its input that is ordered by that key. */
  lemma SortByCorrect(key: SortKey, s: seq<CatalogCar>)
    ensures multiset(SortBy(key, s)) == multiset(s)
    ensures |SortBy(key, s)| == |s|
    ensures Sorted(key, SortBy(key, s))
  {
    SortByPermutes(key, s);
    SortBySorted(key, s);
    assert |SortBy(key, s)| == |multiset(SortBy(key, s))|;
  }

  /** `price-asc` orders by non-decreasing price. */
  lemma SortPriceAsc(s: seq<CatalogCar>)
    ensures forall i, j :: 0 <= i < j < |SortBy(PriceAsc, s)| ==>
      SortBy(PriceAsc, s)[i].model.price <= SortBy(PriceAsc, s)[j].model.price
  {
    SortByCorrect(PriceAsc, s);
  }

  /** `price-desc` orders by non-increasing price. */
  lemma SortPriceDesc(s: seq<CatalogCar>)
    ensures forall i, j :: 0 <= i < j < |SortBy(PriceDesc, s)| ==>
      SortBy(PriceDesc, s)[i].model.price >= SortBy(PriceDesc, s)[j].model.price
  {
    SortByCorrect(PriceDesc, s);
  }

  /** `year` orders by non-increasing year. */
  lemma SortYearDesc(s: seq<CatalogCar>)
    ensures forall i, j :: 0 <= i < j < |SortBy(YearDesc, s)| ==>
      SortBy(YearDesc, s)[i].model.year >= SortBy(YearDesc, s)[j].model.year
  {
    SortByCorrect(YearDesc, s);
  }

  /** `name` orders by non-decreasing name. */
  lemma SortNameAsc(s: seq<CatalogCar>)
    ensures forall i, j :: 0 <= i < j < |SortBy(NameAsc, s)| ==>
      NameCompare(SortBy(NameAsc, s)[i].model.name, SortBy(NameAsc, s)[j].model.name) <= 0
  {
    SortByCorrect(NameAsc, s);
  }

  /** Sorting a sequence that is already sorted leaves it unchanged. */
  lemma {:induction false} SortBySortedIsIdentity(key: SortKey, s: seq<CatalogCar>)
    requires Sorted(key, s)
    ensures SortBy(key, s) == s
  {
    if s != [] {
      assert Sorted(key, s[1..]);
      SortBySortedIsIdentity(key, s[1..]);
      if |s| > 1 {
        assert Leq(key, s[0], s[1]);
      }
    }
  }

  /** Sorting is idempotent. */
  lemma SortByIdempotent(key: SortKey, s: seq<CatalogCar>)
    ensures SortBy(key, SortBy(key, s)) == SortBy(key, s)
  {
    SortByCorrect(key, s);
    SortBySortedIsIdentity(key, SortBy(key, s));
  }

  /** `p` selects elements that are all tied with one another under `key`. */
  ghost predicate TiedClass(key: SortKey, p: CatalogCar -> bool)
  {
    forall a, b :: p(a) && p(b) ==> Leq(key, a, b)
  }

  lemma FilterCons<T>(x: T, s: seq<T>, p: T -> bool)
    ensures Filter([x] + s, p) == Filter([x], p) + Filter(s, p)
  {
    assert ([x] + s)[1..] == s;
  }

  lemma FilterSingleton<T>(x: T, p: T -> bool)
    ensures Filter([x], p) == if p(x) then [x] else []
  {
    assert [x][1..] == [];
  }

  /** When one of two lists is empty, the order in which they are prepended does not matter. */
  lemma SwapPastEmpty<T>(a: seq<T>, b: seq<T>, c: seq<T>)
    requires a == [] || b == []
    ensures a + (b + c) == b + (a + c)
  {
    if a == [] {
      assert a + (b + c) == b + c && a + c == c;
    } else {
      assert b + (a + c) == a + c && b + c == c;
    }
  }

  /** The step of `InsertStable` past a car that `x` may not precede, where at most one of the
      two is selected. */
  lemma InsertStableStep(key: SortKey, p: CatalogCar -> bool, x: CatalogCar, s: seq<CatalogCar>)
    requires s != [] && !Leq(key, x, s[0]) && !(p(x) && p(s[0]))
    requires Filter(Insert(key, x, s[1..]), p) == Filter([x], p) + Filter(s[1..], p)
    ensures Filter(Insert(key, x, s), p) == Filter([x], p) + Filter(s, p)
  {
    var t := Insert(key, x, s[1..]);
    assert Insert(key, x, s) == [s[0]] + t;
    FilterCons(s[0], t, p);
    FilterCons(s[0], s[1..], p);
    assert [s[0]] + s[1..] == s;
    FilterSingleton(x, p);
    FilterSingleton(s[0], p);
    SwapPastEmpty(Filter([s[0]], p), Filter([x], p), Filter(s[1..], p));
  }

  lemma {:induction false} InsertStable(key: SortKey, p: CatalogCar -> bool, x: CatalogCar, s: seq<CatalogCar>)
    requires TiedClass(key, p)
    ensures Filter(Insert(key, x, s), p) == Filter([x], p) + Filter(s, p)
  {
    if s == [] {
    } else if Leq(key, x, s[0]) {
      FilterCons(x, s, p);
    } else {
      InsertStable(key, p, x, s[1..]);
      InsertStableStep(key, p, x, s);
    }
  }

  /** Sorting is stable: the cars tied under the key keep their relative input order. */
  lemma {:induction false} SortByStable(key: SortKey, p: CatalogCar -> bool, s: seq<CatalogCar>)
    requires TiedClass(key, p)
    ensures Filter(SortBy(key, s), p) == Filter(s, p)
  {
    if s != [] {
      SortByStable(key, p, s[1..]);
      InsertStable(key, p, s[0], SortBy(key, s[1..]));
      FilterCons(s[0], s[1..], p);
      assert s == [s[0]] + s[1..];
    }
  }

  /** The cars tied with `e` under the key form a tied class, so the price and year sorts keep
      the fetched order among equal prices or equal years. */
  lemma TiesWithIsTiedClass(key: SortKey, e: CatalogCar)
    ensures TiedClass(key, (c: CatalogCar) => Leq(key, c, e) && Leq(key, e, c))
  {
    forall a, b | Leq(key, a, e) && Leq(key, e, a) && Leq(key, b, e) && Leq(key, e, b)
      ensures Leq(key, a, b)
    {
      LeqTransitive(key, a, e, b);
    }
  }

  /** The sort step: `newest` (and every unrecognised key) keeps the filtered order, which is the
      fetch order (creation time, newest first); the other keys sort a copy. */
  function Arrange(key: SortKey, s: seq<CatalogCar>): seq<CatalogCar>
  {
    if key == Newest then s else SortBy(key, s)
  }

  // ---------------------------------------------------------------------------
  // The whole pipeline

  /** The list the storefront shows for the fetched `cars` and the three controls. */
  function View(cars: seq<CatalogCar>, selected: string, term: string, sortBy: string): seq<CatalogCar>
  {
    Arrange(ParseSortKey(sortBy), BySearch(ByBrand(cars, selected), term))
  }

  /** A car passes both filters. */
  predicate Selected(c: CatalogCar, selected: string, term: string)
  {
    (selected == AllBrands || c.model.brandId == selected) && MatchesTerm(c, term)
  }

  /** The view is a rearrangement of exactly the cars that pass both filters (with their
      multiplicity), ordered by the selected key; with `newest` it is a subsequence of the
      fetched list. */
  lemma ViewSpec(cars: seq<CatalogCar>, selected: string, term: string, sortBy: string)
    ensures forall x ::
      multiset(View(cars, selected, term, sortBy))[x] == if Selected(x, selected, term) then multiset(cars)[x] else 0
    ensures |View(cars, selected, term, sortBy)| <= |cars|
    ensures ParseSortKey(sortBy) != Newest ==> Sorted(ParseSortKey(sortBy), View(cars, selected, term, sortBy))
    ensures ParseSortKey(sortBy) == Newest ==> SubsequenceOf(View(cars, selected, term, sortBy), cars)
  {
    var key := ParseSortKey(sortBy);
    var b := ByBrand(cars, selected);
    var f := BySearch(b, term);
    ByBrandSpec(cars, selected);
    BySearchSpec(b, term);
    SortByCorrect(key, f);
    if key == Newest {
      SubsequenceTransitive(f, b, cars);
    }
  }

  lemma {:induction false} SubsequenceTransitive<T>(a: seq<T>, b: seq<T>, c: seq<T>)
    requires SubsequenceOf(a, b) && SubsequenceOf(b, c)
    ensures SubsequenceOf(a, c)
    decreases |c|
  {
    if a == [] {
    } else if c != [] && b != [] && b[0] == c[0] && SubsequenceOf(b[1..], c[1..]) {
      if a[0] == b[0] && SubsequenceOf(a[1..], b[1..]) {
        SubsequenceTransitive(a[1..], b[1..], c[1..]);
      } else {
        SubsequenceTransitive(a, b[1..], c[1..]);
      }
    } else {
      SubsequenceTransitive(a, b, c[1..]);
    }
  }

  /** With no brand, no search term and `newest`, the storefront shows the fetched order. */
  lemma ViewDefault(cars: seq<CatalogCar>)
    ensures View(cars, AllBrands, "", "newest") == cars
  {
  }

  /** Running the pipeline on its own output changes nothing. */
  lemma ViewIdempotent(cars: seq<CatalogCar>, selected: string, term: string, sortBy: string)
    ensures View(View(cars, selected, term, sortBy), selected, term, sortBy) == View(cars, selected, term, sortBy)
  {
    var key := ParseSortKey(sortBy);
    var v := View(cars, selected, term, sortBy);
    ViewSpec(cars, selected, term, sortBy);
    forall i | 0 <= i < |v| ensures Selected(v[i], selected, term) {
      assert v[i] in multiset(v);
    }
    var bv := ByBrand(v, selected);
    if selected != AllBrands {
      FilterKeepsAll(v, (c: CatalogCar) => c.model.brandId == selected);
    }
    assert bv == v;
    if term != "" {
      FilterKeepsAll(v, (c: CatalogCar) => MatchesTerm(c, term));
    }
    assert BySearch(bv, term) == v;
    if key != Newest {
      SortBySortedIsIdentity(key, v);
    }
  }

  /** Two pickups, the cheaper and newer one fetched second: both `price-asc` and `year`
      put it first. */
  lemma RangerHiluxScenario(ranger: CatalogCar, hilux: CatalogCar)
    requires ranger.model.name == "Ranger" && ranger.model.price == 30000 && ranger.model.year == 2023
    requires hilux.model.name == "Hilux" && hilux.model.price == 28000 && hilux.model.year == 2024
    ensures View([ranger, hilux], AllBrands, "", "price-asc") == [hilux, ranger]
    ensures View([ranger, hilux], AllBrands, "", "year") == [hilux, ranger]
    ensures View([ranger, hilux], AllBrands, "", "price-desc") == [ranger, hilux]
  {
    var cars := [ranger, hilux];
    assert cars[1..] == [hilux];
    assert [hilux][1..] == [];
    forall key: SortKey ensures SortBy(key, cars) == Insert(key, ranger, [hilux]) {
      assert SortBy(key, [hilux]) == [hilux];
    }
    assert Insert(PriceAsc, ranger, [hilux]) == [hilux, ranger];
    assert Insert(YearDesc, ranger, [hilux]) == [hilux, ranger];
    assert Insert(PriceDesc, ranger, [hilux]) == [ranger, hilux];
  }
}
