/** The brands page (`/marcas`): every brand with the number of car models stored for it,
    counted on the client from the `brand_id` column of the car models table. */
module Marcas {
  import opened Entities

  /** Some key of a non-empty map. */
  ghost function Pick(m: map<Id, nat>): (k: Id)
    requires m != map[]
    ensures k in m
  {
    var k :| k in m; k
  }

  /** The sum of the values of a map. */
  ghost function Total(m: map<Id, nat>): nat
    decreases |m|
  {
    if m == map[] then 0
    else var k := Pick(m); m[k] + Total(m - {k})
  }

  /** The sum does not depend on which key is taken out first. */
  lemma {:induction false} TotalRemove(m: map<Id, nat>, k: Id)
    requires k in m
    ensures Total(m) == m[k] + Total(m - {k})
    decreases |m|
  {
    var j := Pick(m);
    if j != k {
      TotalRemove(m - {j}, k);
      TotalRemove(m - {k}, j);
      assert m - {j} - {k} == m - {k} - {j};
    }
  }

  /** Setting one entry changes the sum by the difference. */
  lemma TotalUpdate(m: map<Id, nat>, k: Id, v: nat)
    ensures Total(m[k := v]) == Total(m) - (if k in m then m[k] else 0) + v
  {
    TotalRemove(m[k := v], k);
    assert m[k := v] - {k} == m - {k};
    if k in m {
      TotalRemove(m, k);
    } else {
      assert m - {k} == m;
    }
  }

  /** `carCounts[id] || 0`: the count shown on a brand's card. */
  function ModelCount(counts: map<Id, nat>, id: Id): (n: nat)
    ensures id !in counts ==> n == 0
    ensures id in counts ==> n == counts[id]
  {
    if id in counts then counts[id] else 0
  }

  /** `counts` holds, for each brand id, the number of rows carrying it, and no other key. */
  ghost predicate CountsOf(counts: map<Id, nat>, rows: seq<Id>)
  {
    (forall b :: b in counts <==> b in rows) &&
    (forall b :: ModelCount(counts, b) == multiset(rows)[b]) &&
    (forall b :: b in counts ==> counts[b] > 0)
  }

  /** One more row: its brand's count goes up by one. */
  lemma CountsOfStep(counts: map<Id, nat>, rows: seq<Id>, b: Id)
    requires CountsOf(counts, rows)
    ensures CountsOf(counts[b := ModelCount(counts, b) + 1], rows + [b])
  {
    var next := counts[b := ModelCount(counts, b) + 1];
    forall c ensures ModelCount(next, c) == multiset(rows + [b])[c] {
      assert multiset(rows + [b]) == multiset(rows) + multiset{b};
    }
    forall c ensures c in next <==> c in rows + [b] {
      assert c in rows + [b] <==> c in rows || c == b;
    }
  }

  /** The `forEach` over the fetched `brand_id` column. A brand id is a key exactly when some row
      carries it, its value is the number of such rows, and the values add up to the number of
      rows. */
  method CountByBrand(rows: seq<Id>) returns (counts: map<Id, nat>)
    ensures forall b :: b in counts <==> b in rows
    ensures forall b :: ModelCount(counts, b) == multiset(rows)[b]
    ensures forall b :: b in counts ==> counts[b] > 0
    ensures Total(counts) == |rows|
  {
    counts := map[];
    var i := 0;
    while i < |rows|
      invariant 0 <= i <= |rows|
      invariant CountsOf(counts, rows[..i])
      invariant Total(counts) == i
    {
      var b := rows[i];
      var next := counts[b := ModelCount(counts, b) + 1];
      assert Total(next) == i + 1 by {
        TotalUpdate(counts, b, ModelCount(counts, b) + 1);
      }
      assert CountsOf(next, rows[..i + 1]) by {
        CountsOfStep(counts, rows[..i], b);
        assert rows[..i + 1] == rows[..i] + [b];
      }
      counts, i := next, i + 1;
    }
    assert CountsOf(counts, rows) by {
      assert rows[..i] == rows;
    }
  }

  class MarcasPage {
    var brands: seq<Brand>
    var carCounts: map<Id, nat>
    var loading: bool

    constructor ()
      ensures brands == [] && carCounts == map[] && loading
    {
      brands := [];
      carCounts := map[];
      loading := true;
    }

    /** `fetchData` after both queries resolved: the brand list is replaced when its response
        carried data, the counts are rebuilt when the car rows arrived and kept otherwise. */
    method FetchCompleted(brandsRes: Option<seq<Brand>>, carsRes: Option<seq<Id>>)
      modifies this
      ensures brands == (if brandsRes.Some? then brandsRes.value else old(brands))
      ensures carsRes.None? ==> carCounts == old(carCounts)
      ensures carsRes.Some? ==> forall b :: ModelCount(carCounts, b) == multiset(carsRes.value)[b]
      ensures carsRes.Some? ==> Total(carCounts) == |carsRes.value|
      ensures !loading
    {
      if brandsRes.Some? { brands := brandsRes.value; }
      if carsRes.Some? {
        carCounts := CountByBrand(carsRes.value);
      }
      loading := false;
    }

    /** The count on the `i`-th card. */
    function CardCount(i: nat): (n: nat)
      reads this
      requires i < |brands|
      ensures brands[i].id !in carCounts ==> n == 0
    {
      ModelCount(carCounts, brands[i].id)
    }
  }

  /** After a fetch with car rows, each card shows the number of rows of its brand, 0 for a
      brand without models. */
  method FetchThenShow(page: MarcasPage, brandRows: seq<Brand>, carRows: seq<Id>, i: nat)
    requires i < |brandRows|
    modifies page
    ensures page.brands == brandRows
    ensures page.CardCount(i) == multiset(carRows)[brandRows[i].id]
    ensures brandRows[i].id !in carRows ==> page.CardCount(i) == 0
  {
    page.FetchCompleted(Some(brandRows), Some(carRows));
  }
}
