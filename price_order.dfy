/** The two price orders of the storefront compared: `price-desc` lists the prices of
    `price-asc` back to front. */
module PriceOrder {
  import opened Entities
  import opened Catalog

  /** The prices of a list of cars, in order. */
  function Prices(s: seq<CatalogCar>): (r: seq<int>)
    ensures |r| == |s|
  {
    if s == [] then [] else [s[0].model.price] + Prices(s[1..])
  }

  /** The `i`-th price is the `i`-th car's price. */
  lemma {:induction false} PricesAt(s: seq<CatalogCar>, i: nat)
    requires i < |s|
    ensures Prices(s)[i] == s[i].model.price
  {
    if i > 0 {
      PricesAt(s[1..], i - 1);
    }
  }

  /** A sequence read back to front. */
  function Reversed<T>(x: seq<T>): (r: seq<T>)
    ensures |r| == |x|
  {
    if x == [] then [] else Reversed(x[1..]) + [x[0]]
  }

  /** The `i`-th element of the reversal is the `i`-th from the end. */
  lemma {:induction false} ReversedAt<T>(x: seq<T>, i: nat)
    requires i < |x|
    ensures Reversed(x)[i] == x[|x| - 1 - i]
  {
    if i < |x| - 1 {
      ReversedAt(x[1..], i);
    }
  }

  lemma {:induction false} ReversedMultiset<T>(x: seq<T>)
    ensures multiset(Reversed(x)) == multiset(x)
  {
    if x != [] {
      ReversedMultiset(x[1..]);
      assert x == [x[0]] + x[1..];
    }
  }

  /** A sequence of prices ordered from cheapest to dearest. */
  ghost predicate NonDecreasing(x: seq<int>)
  {
    forall i, j :: 0 <= i < j < |x| ==> x[i] <= x[j]
  }

  /** If `b` is a permutation of `a` and holds `a`'s first element at `j`, then `b` without
      that element is a permutation of the rest of `a`. */
  lemma RemoveMatching<T>(a: seq<T>, b: seq<T>, j: nat)
    requires multiset(a) == multiset(b) && a != [] && j < |b| && b[j] == a[0]
    ensures multiset(b[..j] + b[j + 1..]) == multiset(a[1..])
  {
    var rest := b[..j] + b[j + 1..];
    assert b == b[..j] + [b[j]] + b[j + 1..];
    assert a == [a[0]] + a[1..];
    forall e ensures multiset(rest)[e] == multiset(a[1..])[e] {
      assert multiset(b)[e] == multiset(a)[e];
    }
  }

  /** The prices of a non-empty list: its first car's price and those of the rest. */
  lemma PricesCons(a: seq<CatalogCar>)
    requires a != []
    ensures multiset(Prices(a)) == multiset{a[0].model.price} + multiset(Prices(a[1..]))
  {
    assert Prices(a) == [a[0].model.price] + Prices(a[1..]);
  }

  /** Dropping a later element keeps the head and drops it from the tail. */
  lemma DropAtTail<T>(b: seq<T>, j: nat)
    requires 0 < j < |b|
    ensures b[..j] + b[j + 1..] != []
    ensures (b[..j] + b[j + 1..])[0] == b[0]
    ensures (b[..j] + b[j + 1..])[1..] == b[1..][..j - 1] + b[1..][j..]
    ensures b[1..][j - 1] == b[j]
  {
  }

  /** Some position of `b` holds `x`. */
  lemma IndexOf<T>(b: seq<T>, x: T) returns (j: nat)
    requires x in multiset(b)
    ensures j < |b| && b[j] == x
  {
    j :| 0 <= j < |b| && b[j] == x;
  }

  /** The prices of `b` are those of `b` without its `j`-th car, plus that car's price. */
  lemma {:induction false} PricesDropAt(b: seq<CatalogCar>, j: nat)
    requires j < |b|
    ensures multiset(Prices(b)) == multiset(Prices(b[..j] + b[j + 1..])) + multiset{b[j].model.price}
  {
    if j == 0 {
      PricesCons(b);
      assert b[..0] + b[1..] == b[1..];
    } else {
      DropAtTail(b, j);
      PricesCons(b[..j] + b[j + 1..]);
      PricesCons(b);
      PricesDropAt(b[1..], j - 1);
    }
  }

  /** Two permutations of each other carry the same prices, counted with repetition. */
  lemma {:induction false} PricesPermute(a: seq<CatalogCar>, b: seq<CatalogCar>)
    requires multiset(a) == multiset(b)
    ensures multiset(Prices(a)) == multiset(Prices(b))
    decreases |a|
  {
    if a != [] {
      var j := IndexOf(b, a[0]);
      RemoveMatching(a, b, j);
      PricesPermute(a[1..], b[..j] + b[j + 1..]);
      PricesDropAt(b, j);
      PricesCons(a);
    }
  }

  /** In a non-decreasing sequence the first value is the least of all values. */
  lemma HeadIsLeast(x: seq<int>, y: seq<int>)
    requires NonDecreasing(y) && x != [] && multiset(x) == multiset(y)
    ensures y != [] && y[0] <= x[0]
  {
    assert x[0] in multiset(y);
    var k :| 0 <= k < |y| && y[k] == x[0];
    if k != 0 {
      assert y[0] <= y[k];
    }
  }

  /** Equal multisets with equal heads have equal tails. */
  lemma TailsPermute(x: seq<int>, y: seq<int>)
    requires x != [] && y != [] && x[0] == y[0] && multiset(x) == multiset(y)
    ensures multiset(x[1..]) == multiset(y[1..])
  {
    assert x == [x[0]] + x[1..];
    assert y == [y[0]] + y[1..];
    assert multiset(x) == multiset{x[0]} + multiset(x[1..]);
    assert multiset(y) == multiset{y[0]} + multiset(y[1..]);
    forall e ensures multiset(x[1..])[e] == multiset(y[1..])[e] {
      assert multiset(x)[e] == multiset(y)[e];
    }
  }

  /** Two non-decreasing integer sequences holding the same values are equal. */
  lemma {:induction false} SortedIntsEqual(x: seq<int>, y: seq<int>)
    requires NonDecreasing(x) && NonDecreasing(y)
    requires multiset(x) == multiset(y)
    ensures x == y
    decreases |x|
  {
    assert |x| == |multiset(x)| == |multiset(y)| == |y|;
    if x != [] {
      HeadIsLeast(x, y);
      HeadIsLeast(y, x);
      TailsPermute(x, y);
      SortedIntsEqual(x[1..], y[1..]);
      assert x == [x[0]] + x[1..];
      assert y == [y[0]] + y[1..];
    }
  }

  /** A non-increasing integer sequence read back to front is non-decreasing. */
  lemma ReversedNonDecreasing(x: seq<int>)
    requires forall i, j :: 0 <= i < j < |x| ==> x[i] >= x[j]
    ensures NonDecreasing(Reversed(x))
  {
    var r := Reversed(x);
    forall i, j | 0 <= i < j < |r| ensures r[i] <= r[j] {
      ReversedAt(x, i);
      ReversedAt(x, j);
    }
  }

  /** A list ordered by non-increasing price has non-increasing prices. */
  lemma PricesNonIncreasing(d: seq<CatalogCar>)
    requires forall i, j :: 0 <= i < j < |d| ==> d[i].model.price >= d[j].model.price
    ensures forall i, j :: 0 <= i < j < |Prices(d)| ==> Prices(d)[i] >= Prices(d)[j]
  {
    forall i, j | 0 <= i < j < |Prices(d)| ensures Prices(d)[i] >= Prices(d)[j] {
      PricesAt(d, i);
      PricesAt(d, j);
    }
  }

  /** A list ordered by non-decreasing price has non-decreasing prices. */
  lemma PricesNonDecreasing(a: seq<CatalogCar>)
    requires forall i, j :: 0 <= i < j < |a| ==> a[i].model.price <= a[j].model.price
    ensures NonDecreasing(Prices(a))
  {
    forall i, j | 0 <= i < j < |Prices(a)| ensures Prices(a)[i] <= Prices(a)[j] {
      PricesAt(a, i);
      PricesAt(a, j);
    }
  }

  /** The two price orders are permutations of each other. */
  lemma PriceOrdersPermute(s: seq<CatalogCar>)
    ensures multiset(SortBy(PriceAsc, s)) == multiset(SortBy(PriceDesc, s))
    ensures |SortBy(PriceDesc, s)| == |SortBy(PriceAsc, s)| == |s|
  {
    SortByCorrect(PriceAsc, s);
    SortByCorrect(PriceDesc, s);
  }

  /** The price lists of two such permutations are each other read back to front. */
  lemma PricesMirrored(a: seq<CatalogCar>, d: seq<CatalogCar>)
    requires multiset(a) == multiset(d)
    requires forall i, j :: 0 <= i < j < |a| ==> a[i].model.price <= a[j].model.price
    requires forall i, j :: 0 <= i < j < |d| ==> d[i].model.price >= d[j].model.price
    ensures Prices(a) == Reversed(Prices(d))
  {
    PricesPermute(a, d);
    ReversedMultiset(Prices(d));
    PricesNonIncreasing(d);
    ReversedNonDecreasing(Prices(d));
    PricesNonDecreasing(a);
    SortedIntsEqual(Prices(a), Reversed(Prices(d)));
  }

  /** A sequence that is another read back to front holds its elements in mirrored positions. */
  lemma ReversedPointwise(x: seq<int>, y: seq<int>)
    requires x == Reversed(y)
    ensures |x| == |y|
    ensures forall k :: 0 <= k < |x| ==> x[k] == y[|y| - 1 - k]
  {
    forall k | 0 <= k < |x| ensures x[k] == y[|y| - 1 - k] {
      ReversedAt(y, k);
    }
  }

  /** Cars whose prices are mirrored position by position. */
  lemma MirroredPrices(a: seq<CatalogCar>, d: seq<CatalogCar>)
    requires |a| == |d|
    requires forall k :: 0 <= k < |a| ==> Prices(a)[k] == Prices(d)[|d| - 1 - k]
    ensures forall i :: 0 <= i < |d| ==> d[i].model.price == a[|a| - 1 - i].model.price
  {
    forall i | 0 <= i < |d| ensures d[i].model.price == a[|a| - 1 - i].model.price {
      var k := |a| - 1 - i;
      assert Prices(a)[k] == Prices(d)[i];
      PricesAt(a, k);
      PricesAt(d, i);
    }
  }

  /** `price-desc` shows the prices of `price-asc` in reverse order (cars of equal price may
      differ, since each order keeps ties in their incoming order). */
  lemma PriceDescReversesPriceAsc(s: seq<CatalogCar>)
    ensures |SortBy(PriceDesc, s)| == |SortBy(PriceAsc, s)| == |s|
    ensures forall i :: 0 <= i < |s| ==>
      SortBy(PriceDesc, s)[i].model.price == SortBy(PriceAsc, s)[|s| - 1 - i].model.price
  {
    var a, d := SortBy(PriceAsc, s), SortBy(PriceDesc, s);
    PriceOrdersPermute(s);
    assert forall k :: 0 <= k < |a| ==> Prices(a)[k] == Prices(d)[|d| - 1 - k] by {
      SortPriceAsc(s);
      SortPriceDesc(s);
      PricesMirrored(a, d);
      ReversedPointwise(Prices(a), Prices(d));
    }
    MirroredPrices(a, d);
  }
}
