/** The two keyed collections the product routes work on: the live Product
    collection and the DeletedProduct archive, with the id allocator that
    stands in for Mongo's fresh ObjectIds, the invariant every handler keeps,
    the total stock they conserve, and `findOne`'s choice of a match. */
module Stores {
  import opened Wrappers
  import opened Text
  import opened Models

  datatype Stores = Stores(
    products: map<Id, Product>,
    archive: map<Id, DeletedProduct>,
    nextId: nat)

  /** A product as it sits in the live collection: it passed the
      validators, its trimmed fields are trimmed, and the pre-save hook set
      its normalised name. */
  predicate Stored(p: Product)
  {
    && Conforms(p)
    && p.normalizedName == Lower(p.name)
    && Trimmed(p.name)
    && (p.sku.Some? ==> Trimmed(p.sku.value))
    && (p.category.Some? ==> Trimmed(p.category.value))
  }

  /** The sparse unique index on `sku`: no two products share a present
      sku; any number of products may lack one. */
  predicate SkuUnique(products: map<Id, Product>)
  {
    forall i, j :: i in products && j in products && i != j && products[i].sku.Some? ==>
      products[i].sku != products[j].sku
  }

  /** The store invariant: every id was allocated, an id names a live
      product or an archive record but not both, and every product is
      stored in valid form under the unique-sku index. */
  predicate Valid(s: Stores)
  {
    && (forall id :: id in s.products ==> id < s.nextId && Stored(s.products[id]))
    && (forall id :: id in s.archive ==> id < s.nextId)
    && s.products.Keys !! s.archive.Keys
    && SkuUnique(s.products)
  }

  /** Whether saving `p` under `id` passes validation: the schema's
      validators and the unique sku index against every other product. */
  predicate Acceptable(products: map<Id, Product>, id: Id, p: Product)
  {
    && Conforms(p)
    && (p.sku.Some? ==> forall j :: j in products && j != id ==> products[j].sku != p.sku)
  }

  /** Saving a document that passed validation under a fresh or its own id
      keeps the invariant. */
  lemma SaveKeepsValid(s: Stores, id: Id, p: Product)
    requires Valid(s) && id < s.nextId && id !in s.archive
    requires Acceptable(s.products, id, p)
    requires Trimmed(p.name)
    requires p.sku.Some? ==> Trimmed(p.sku.value)
    requires p.category.Some? ==> Trimmed(p.category.value)
    ensures Valid(s.(products := s.products[id := PreSave(p)]))
  {
    var q := PreSave(p);
    var ps := s.products[id := q];
    assert q == p.(normalizedName := Lower(p.name));
    assert Stored(q);
    assert forall k :: k in ps ==> k < s.nextId && Stored(ps[k]) by {
      forall k | k in ps ensures k < s.nextId && Stored(ps[k]) {
        if k != id { assert ps[k] == s.products[k]; }
      }
    }
    assert ps.Keys !! s.archive.Keys;
    assert SkuUnique(ps) by {
      forall i, j | i in ps && j in ps && i != j && ps[i].sku.Some?
        ensures ps[i].sku != ps[j].sku
      {
        if i == id {
          assert ps[j] == s.products[j];
        } else if j == id {
          assert ps[i] == s.products[i];
        } else {
          assert ps[i] == s.products[i] && ps[j] == s.products[j];
        }
      }
    }
  }

  // ---------------------------------------------------------------------
  // Total stock

  /** The sum of the values of `q` at the ids below `n`. */
  function Sum(q: map<Id, int>, n: nat): int
  {
    if n == 0 then 0 else Sum(q, n - 1) + (if n - 1 in q then q[n - 1] else 0)
  }

  function Get(q: map<Id, int>, k: Id): int
  {
    if k in q then q[k] else 0
  }

  /** Changing the value at one id changes the sum by the difference, when
      the id is counted at all. */
  lemma {:induction false} SumUpdate(q: map<Id, int>, k: Id, v: int, n: nat)
    ensures Sum(q[k := v], n) == Sum(q, n) + (if k < n then v - Get(q, k) else 0)
  {
    if n > 0 {
      SumUpdate(q, k, v, n - 1);
    }
  }

  /** Removing an id takes its value out of the sum, when it is counted. */
  lemma {:induction false} SumRemove(q: map<Id, int>, k: Id, n: nat)
    ensures Sum(q - {k}, n) == Sum(q, n) - (if k < n then Get(q, k) else 0)
  {
    if n > 0 {
      SumRemove(q, k, n - 1);
    }
  }

  function ProductQuantities(products: map<Id, Product>): map<Id, int>
  {
    map id | id in products :: products[id].quantity
  }

  function ArchivedQuantities(archive: map<Id, DeletedProduct>): map<Id, int>
  {
    map id | id in archive :: archive[id].quantity
  }

  /** All units the stores account for: those in stock plus those archived. */
  function TotalStock(s: Stores): int
  {
    Sum(ProductQuantities(s.products), s.nextId) + Sum(ArchivedQuantities(s.archive), s.nextId)
  }

  function LiveStock(s: Stores): int
  {
    Sum(ProductQuantities(s.products), s.nextId)
  }

  function ArchivedStock(s: Stores): int
  {
    Sum(ArchivedQuantities(s.archive), s.nextId)
  }

  lemma ProductQuantitiesUpdate(products: map<Id, Product>, k: Id, p: Product)
    ensures ProductQuantities(products[k := p]) == ProductQuantities(products)[k := p.quantity]
  {
  }

  lemma ProductQuantitiesRemove(products: map<Id, Product>, k: Id)
    ensures ProductQuantities(products - {k}) == ProductQuantities(products) - {k}
  {
  }

  lemma ArchivedQuantitiesUpdate(archive: map<Id, DeletedProduct>, k: Id, d: DeletedProduct)
    ensures ArchivedQuantities(archive[k := d]) == ArchivedQuantities(archive)[k := d.quantity]
  {
  }

  lemma ArchivedQuantitiesRemove(archive: map<Id, DeletedProduct>, k: Id)
    ensures ArchivedQuantities(archive - {k}) == ArchivedQuantities(archive) - {k}
  {
  }

  /** An id that is not in the map adds nothing when the range grows past it. */
  lemma SumGrow(q: map<Id, int>, n: nat)
    requires n !in q
    ensures Sum(q, n + 1) == Sum(q, n)
  {
  }

  // ---------------------------------------------------------------------
  // findOne

  /** `findOne`: the first product, in id order between `from` and `to`, that
      `matches` holds of. Ids are allocated in increasing order, so this is
      the earliest created match. */
  function FirstMatching(products: map<Id, Product>, from: nat, to: nat, matches: Product -> bool): (r: Option<Id>)
    ensures r.Some? ==> from <= r.value < to && r.value in products && matches(products[r.value])
    ensures r.Some? ==> (forall j :: from <= j < r.value && j in products ==> !matches(products[j]))
    ensures r.None? ==> (forall j :: from <= j < to && j in products ==> !matches(products[j]))
    decreases if to > from then to - from else 0
  {
    if from >= to then None
    else if from in products && matches(products[from]) then Some(from)
    else FirstMatching(products, from + 1, to, matches)
  }
}
