/** The product document: the seeded catalog and id assignment. */
module Catalog {
  import opened Records
  import opened Lookup

  /** The icon text exactly as app.js:112 and app.js:117 spell it, character for character. */
  const Icon := "\U{F0}\U{178}\U{201C}\U{A6}"

  /** The catalog `GET /api/products` writes when `products.json` does not exist. */
  const SeedProduct := Product(1, "Paket A", Num(150000), Num(50), Icon)

  function IdOf(p: Product): int {
    p.id
  }

  function HasId(id: int): Product -> bool {
    (p: Product) => p.id == id
  }

  function OtherId(id: int): Product -> bool {
    (p: Product) => p.id != id
  }

  /** `Math.max` over the ids of a non-empty catalog. */
  function MaxId(ps: seq<Product>): (m: int)
    requires |ps| > 0
    ensures forall i :: 0 <= i < |ps| ==> ps[i].id <= m
    ensures exists i :: 0 <= i < |ps| && ps[i].id == m
  {
    if |ps| == 1 then ps[0].id
    else
      var rest := MaxId(ps[1..]);
      if ps[0].id >= rest then ps[0].id else rest
  }

  /** The id a new product gets: 1 in an empty catalog, else one more than the largest id. */
  function NextId(ps: seq<Product>): (id: int)
    ensures ps == [] ==> id == 1
    ensures forall i :: 0 <= i < |ps| ==> ps[i].id < id
    ensures ps != [] ==> exists i :: 0 <= i < |ps| && ps[i].id == id - 1
  {
    if |ps| > 0 then MaxId(ps) + 1 else 1
  }

  /** Ids are unique and positive. */
  ghost predicate IdsValid(ps: seq<Product>) {
    Distinct(ps, IdOf) && forall i :: 0 <= i < |ps| ==> ps[i].id > 0
  }

  /** A product added under `NextId` keeps ids unique and positive. */
  lemma AddKeepsIdsValid(ps: seq<Product>, p: Product)
    requires IdsValid(ps) && p.id == NextId(ps)
    ensures IdsValid(ps + [p])
  {
  }

  /** Replacing name, price and stock keeps ids unique and positive. */
  lemma UpdateKeepsIdsValid(ps: seq<Product>, i: nat, name: string, price: Value, stock: Value)
    requires i < |ps| && IdsValid(ps)
    ensures IdsValid(ps[i := ps[i].(name := name, price := price, stock := stock)])
  {
    DistinctUpdate(ps, i, ps[i].(name := name, price := price, stock := stock), IdOf);
  }

  /** Deleting by id keeps ids unique and positive and leaves no product with that id. */
  lemma DeleteKeepsIdsValid(ps: seq<Product>, id: int)
    requires IdsValid(ps)
    ensures IdsValid(Filter(ps, OtherId(id)))
    ensures forall i :: 0 <= i < |Filter(ps, OtherId(id))| ==> Filter(ps, OtherId(id))[i].id != id
  {
    DistinctFilter(ps, OtherId(id), IdOf);
  }
}
