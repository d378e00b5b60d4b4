/** What the product route handlers promise, proved about their
    specification functions in Lifecycle: which requests each one rejects,
    the state it leaves, that it keeps the store invariant, and how it
    moves stock between the live collection and the archive. */
module LifecycleLemmas {
  import opened Wrappers
  import opened Text
  import opened Models
  import opened Stores
  import opened Lifecycle
  import VoiceParser

  // ---------------------------------------------------------------------
  // Shared steps

  /** Allocating the next id keeps the invariant and counts no new stock. */
  lemma AllocateKeepsValid(s: Stores)
    requires Valid(s)
    ensures Valid(s.(nextId := s.nextId + 1))
    ensures s.nextId !in s.products && s.nextId !in s.archive
    ensures Sum(ProductQuantities(s.products), s.nextId + 1) == LiveStock(s)
    ensures Sum(ArchivedQuantities(s.archive), s.nextId + 1) == ArchivedStock(s)
  {
    FreshIdCountsNothing(s);
  }

  lemma FreshIdCountsNothing(s: Stores)
    requires s.nextId !in s.products && s.nextId !in s.archive
    ensures Sum(ProductQuantities(s.products), s.nextId + 1) == LiveStock(s)
    ensures Sum(ArchivedQuantities(s.archive), s.nextId + 1) == ArchivedStock(s)
  {
    SumGrow(ProductQuantities(s.products), s.nextId);
    SumGrow(ArchivedQuantities(s.archive), s.nextId);
  }

  /** A product saved under the next id brings its quantity into stock. */
  lemma InsertFreshStock(s: Stores, p: Product)
    requires s.nextId !in s.products && s.nextId !in s.archive
    ensures var s1 := Stores(s.products[s.nextId := p], s.archive, s.nextId + 1);
            && LiveStock(s1) == LiveStock(s) + p.quantity
            && ArchivedStock(s1) == ArchivedStock(s)
  {
    var pq := ProductQuantities(s.products);
    FreshIdCountsNothing(s);
    ProductQuantitiesUpdate(s.products, s.nextId, p);
    SumUpdate(pq, s.nextId, p.quantity, s.nextId + 1);
    assert Get(pq, s.nextId) == 0;
  }

  /** Writing an archive record under an id that names neither a live
      product nor archive record keeps the invariant. */
  lemma ArchiveKeepsValid(s: Stores, id: Id, d: DeletedProduct)
    requires Valid(s) && id < s.nextId && id !in s.products
    ensures Valid(s.(archive := s.archive[id := d]))
  {
  }

  lemma RemoveKeepsValid(s: Stores, id: Id)
    requires Valid(s)
    ensures Valid(s.(products := s.products - {id}))
    ensures Valid(s.(archive := s.archive - {id}))
  {
    var ps := s.products - {id};
    assert SkuUnique(ps) by {
      forall i, j | i in ps && j in ps && i != j && ps[i].sku.Some?
        ensures ps[i].sku != ps[j].sku
      {
        assert ps[i] == s.products[i] && ps[j] == s.products[j];
      }
    }
  }

  /** The trimmed strings of a new document are trimmed. */
  lemma NewDocumentTrimmed(f: ProductFields)
    ensures var p := NewDocument(f);
            && Trimmed(p.name)
            && (p.sku.Some? ==> Trimmed(p.sku.value))
            && (p.category.Some? ==> Trimmed(p.category.value))
  {
    TrimmedIff(f.name);
    if f.sku.Some? { TrimmedIff(f.sku.value); }
    if f.category.Some? { TrimmedIff(f.category.value); }
  }

  /** A present sku that no live product carries. */
  predicate SkuFree(products: map<Id, Product>, sku: Option<string>)
  {
    sku.Some? ==> forall j :: j in products ==> products[j].sku != sku
  }

  // ---------------------------------------------------------------------
  // Create

  /** Create answers BadRequest, and changes nothing, exactly when the name
      is missing or empty or the quantity is `null`. */
  lemma CreateRejects(s: Stores, owner: UserId, req: CreateRequest)
    ensures Create(s, owner, req).response == BadRequest <==> CreateRejected(req)
    ensures CreateRejected(req) ==> Create(s, owner, req).stores == s
  {
  }

  /** A create that passes the request checks always inserts a NEW product
      under a fresh id, whatever products share its name, exactly when the
      trimmed name is non-empty, the quantity is not negative and the sku
      is free; the product carries the request's fields, the handler's
      defaults and the caller as owner. Otherwise the save fails and
      nothing changes. */
  lemma CreateInserts(s: Stores, owner: UserId, req: CreateRequest)
    requires Valid(s) && !CreateRejected(req)
    ensures var o := Create(s, owner, req);
            var name := Trim(req.name.value);
            var qty := if req.quantity.Given? then req.quantity.value else 0;
            && (o.response.Created? <==> name != [] && qty >= 0 && SkuFree(s.products, TrimOption(req.sku)))
            && (o.response.Created? ==>
                  var p := o.response.product;
                  && o.response.id == s.nextId
                  && s.nextId !in s.products && s.nextId !in s.archive
                  && o.stores == Stores(s.products[s.nextId := p], s.archive, s.nextId + 1)
                  && p.name == name && p.normalizedName == Lower(name)
                  && p.quantity == qty
                  && p.sku == TrimOption(req.sku) && p.category == TrimOption(req.category)
                  && p.unit == OrElse(req.unit, "pcs") && p.price == OrElse(req.price, 0)
                  && p.minStockLevel == OrElse(req.minStockLevel, 5)
                  && p.isActive && p.createdBy == owner && p.user == owner)
            && (!o.response.Created? ==> o == Outcome(s, ServerError))
  {
    AllocateKeepsValid(s);
  }

  lemma CreateKeepsValid(s: Stores, owner: UserId, req: CreateRequest)
    requires Valid(s)
    ensures Valid(Create(s, owner, req).stores)
  {
    if !CreateRejected(req) {
      var doc := NewDocument(CreateFields(req, owner));
      if Acceptable(s.products, s.nextId, doc) {
        var s1 := s.(nextId := s.nextId + 1);
        AllocateKeepsValid(s);
        NewDocumentTrimmed(CreateFields(req, owner));
        SaveKeepsValid(s1, s.nextId, doc);
        assert Create(s, owner, req).stores == s1.(products := s1.products[s.nextId := PreSave(doc)]);
      }
    }
  }

  /** A created product brings its quantity into stock, and nothing else
      moves. */
  lemma CreateStock(s: Stores, owner: UserId, req: CreateRequest)
    requires Valid(s)
    ensures var o := Create(s, owner, req);
            && ArchivedStock(o.stores) == ArchivedStock(s)
            && LiveStock(o.stores) == LiveStock(s) + (if o.response.Created? then o.response.product.quantity else 0)
  {
    var o := Create(s, owner, req);
    if o.response.Created? {
      CreateRejects(s, owner, req);
      CreateInserts(s, owner, req);
      InsertFreshStock(s, o.response.product);
    }
  }

  // ---------------------------------------------------------------------
  // Adjust

  /** Adjust answers NotFound for a missing id; otherwise it sets the
      quantity to the old quantity plus `delta` (0 when absent), clamped at
      zero, changes no other field, and answers with the saved product. */
  lemma AdjustClamps(s: Stores, id: Id, delta: Option<int>)
    requires Valid(s)
    ensures var o := Adjust(s, id, delta);
            && (id !in s.products ==> o == Outcome(s, NotFound))
            && (id in s.products ==>
                  var before := s.products[id];
                  var d := OrElse(delta, 0);
                  && o.response.Adjusted?
                  && var p := o.response.product;
                  && p == before.(quantity := p.quantity)
                  && p.quantity >= 0
                  && (before.quantity + d >= 0 ==> p.quantity == before.quantity + d)
                  && (before.quantity + d < 0 ==> p.quantity == 0)
                  && o.stores == s.(products := s.products[id := p]))
  {
  }

  /** The adjusted product always passes the validators and the unique
      index, so the save the handler awaits cannot fail. */
  lemma AdjustSaveAccepted(s: Stores, id: Id, delta: Option<int>)
    requires Valid(s) && id in s.products
    ensures var p := s.products[id];
            Acceptable(s.products, id, p.(quantity := AdjustedQuantity(p.quantity, delta)))
  {
  }

  lemma AdjustKeepsValid(s: Stores, id: Id, delta: Option<int>)
    requires Valid(s)
    ensures Valid(Adjust(s, id, delta).stores)
  {
    if id in s.products {
      var p := s.products[id];
      SaveKeepsValid(s, id, p.(quantity := AdjustedQuantity(p.quantity, delta)));
    }
  }

  /** Adjust moves stock by exactly the change in the product's quantity
      and leaves the archive alone. */
  lemma AdjustStock(s: Stores, id: Id, delta: Option<int>)
    requires Valid(s) && id in s.products
    ensures var o := Adjust(s, id, delta);
            && ArchivedStock(o.stores) == ArchivedStock(s)
            && LiveStock(o.stores) == LiveStock(s) + o.response.product.quantity - s.products[id].quantity
  {
    var p := Adjust(s, id, delta).response.product;
    ProductQuantitiesUpdate(s.products, id, p);
    SumUpdate(ProductQuantities(s.products), id, p.quantity, s.nextId);
  }

  // ---------------------------------------------------------------------
  // Whole delete

  /** Delete answers NotFound for a missing id; otherwise the product
      leaves the live collection and its snapshot, with its whole quantity,
      joins the archive under the same id, which no record held before. */
  lemma DeleteArchives(s: Stores, id: Id)
    requires Valid(s)
    ensures id in s.products ==>
              && Delete(s, id).stores == Stores(s.products - {id}, s.archive[id := Snapshot(s.products[id])], s.nextId)
              && Delete(s, id).stores.archive - {id} == s.archive
              && Stored(s.products[id])
    ensures var o := Delete(s, id);
            && (id !in s.products ==> o == Outcome(s, NotFound))
            && (id in s.products ==>
                  var p := s.products[id];
                  && o.response == Deleted
                  && o.stores.products == s.products - {id}
                  && id !in s.archive && id in o.stores.archive
                  && o.stores.archive == s.archive[id := o.stores.archive[id]]
                  && |o.stores.archive| == |s.archive| + 1
                  && var d := o.stores.archive[id];
                  && d.name == p.name && d.sku == p.sku && d.category == p.category
                  && d.unit == p.unit && d.price == p.price && d.quantity == p.quantity
                  && d.minStockLevel == p.minStockLevel
                  && d.createdBy == p.createdBy && d.user == p.user
                  && o.stores.nextId == s.nextId)
  {
  }

  lemma DeleteKeepsValid(s: Stores, id: Id)
    requires Valid(s)
    ensures Valid(Delete(s, id).stores)
  {
    if id in s.products {
      RemoveKeepsValid(s, id);
      ArchiveKeepsValid(s.(products := s.products - {id}), id, Snapshot(s.products[id]));
    }
  }

  /** Delete moves the product's whole quantity from stock into the
      archive: the total is conserved. */
  lemma DeleteStock(s: Stores, id: Id)
    requires Valid(s) && id in s.products
    ensures var o := Delete(s, id);
            && LiveStock(o.stores) == LiveStock(s) - s.products[id].quantity
            && ArchivedStock(o.stores) == ArchivedStock(s) + s.products[id].quantity
            && TotalStock(o.stores) == TotalStock(s)
  {
    var p := s.products[id];
    var pq := ProductQuantities(s.products);
    var aq := ArchivedQuantities(s.archive);
    var o := Delete(s, id);
    assert o.stores == Stores(s.products - {id}, s.archive[id := Snapshot(p)], s.nextId);
    assert id < s.nextId && id !in s.archive;
    ProductQuantitiesRemove(s.products, id);
    SumRemove(pq, id, s.nextId);
    assert Get(pq, id) == p.quantity;
    ArchivedQuantitiesUpdate(s.archive, id, Snapshot(p));
    SumUpdate(aq, id, p.quantity, s.nextId);
    assert Get(aq, id) == 0;
  }

  // ---------------------------------------------------------------------
  // Multi-delete

  /** Whole deletes of the ids one after another: the reference the
      multi-delete is compared with. */
  function DeleteAll(s: Stores, ids: seq<Id>): Stores
  {
    if ids == [] then s else Delete(DeleteAll(s, ids[..|ids| - 1]), ids[|ids| - 1]).stores
  }

  /** Multi-delete answers BadRequest when `ids` is missing or empty and
      NotFound when none of them names a live product; in both cases it
      changes nothing. */
  lemma MultiDeleteRejects(s: Stores, ids: Option<seq<Id>>)
    ensures var o := MultiDelete(s, ids);
            && (o.response == BadRequest <==> ids.None? || ids.value == [])
            && (o.response == NotFound <==>
                  ids.Some? && ids.value != [] && forall i :: 0 <= i < |ids.value| ==> ids.value[i] !in s.products)
            && (o.response == BadRequest || o.response == NotFound ==> o.stores == s)
  {
    if ids.Some? && ids.value != [] {
      var found := Matched(s.products, ids.value);
      if exists i :: 0 <= i < |ids.value| && ids.value[i] in s.products {
        var i :| 0 <= i < |ids.value| && ids.value[i] in s.products;
        assert ids.value[i] in found;
      } else {
        assert found == {};
      }
    }
  }

  /** Deleting the ids one by one takes exactly the matched ids out of the
      live collection and archives the snapshot of each under its id. */
  lemma {:induction false} DeleteAllForm(s: Stores, ids: seq<Id>)
    ensures var m := Matched(s.products, ids);
            DeleteAll(s, ids) == Stores(s.products - m, s.archive + Snapshots(s.products, m), s.nextId)
  {
    if ids == [] {
      assert Matched(s.products, ids) == {};
      assert s.archive + Snapshots(s.products, {}) == s.archive;
      assert s.products - {} == s.products;
    } else {
      var init := ids[..|ids| - 1];
      var x := ids[|ids| - 1];
      assert ids == init + [x];
      DeleteAllForm(s, init);
      var m0 := Matched(s.products, init);
      var m := Matched(s.products, ids);
      if x in s.products && x !in m0 {
        assert m == m0 + {x};
        DeleteOneMore(s.products, s.archive, m0, x);
      } else {
        assert m == m0;
      }
    }
  }

  /** Taking one more product out, and archiving it, extends the set of
      deleted ids by one. */
  lemma DeleteOneMore(products: map<Id, Product>, archive: map<Id, DeletedProduct>, m0: set<Id>, x: Id)
    requires x in products && x !in m0
    ensures (products - m0) - {x} == products - (m0 + {x})
    ensures (archive + Snapshots(products, m0))[x := Snapshot(products[x])]
            == archive + Snapshots(products, m0 + {x})
  {
  }

  /** A multi-delete that finds products is the whole delete of each id in
      turn, and both of its counts are the number of products found. */
  lemma MultiDeleteIsDeleteAll(s: Stores, ids: seq<Id>)
    requires ids != [] && Matched(s.products, ids) != {}
    ensures var m := Matched(s.products, ids);
            MultiDelete(s, Some(ids)) == Outcome(DeleteAll(s, ids), MultiDeleted(|m|, |m|))
  {
    DeleteAllForm(s, ids);
  }

  /** What a successful multi-delete leaves: each found product is gone
      from the live collection and archived whole under its id; every other
      product and archive record is untouched. */
  lemma MultiDeleteArchives(s: Stores, ids: seq<Id>)
    requires s.products.Keys !! s.archive.Keys
    requires ids != [] && Matched(s.products, ids) != {}
    ensures var o := MultiDelete(s, Some(ids));
            var m := Matched(s.products, ids);
            && o.response == MultiDeleted(|m|, |m|) && |m| > 0
            && o.stores.products.Keys == s.products.Keys - m
            && (forall id :: id in o.stores.products ==> o.stores.products[id] == s.products[id])
            && o.stores.archive.Keys == s.archive.Keys + m
            && (forall id :: id in m ==> o.stores.archive[id] == Snapshot(s.products[id]))
            && (forall id :: id in s.archive ==> o.stores.archive[id] == s.archive[id])
  {
    var m := Matched(s.products, ids);
    var o := MultiDelete(s, Some(ids));
    var snaps := Snapshots(s.products, m);
    assert o.stores.products == s.products - m;
    assert o.stores.archive == s.archive + snaps;
    assert snaps.Keys == m;
    assert forall id :: id in s.archive ==> id !in m;
  }

  lemma {:induction false} DeleteAllKeepsValid(s: Stores, ids: seq<Id>)
    requires Valid(s)
    ensures Valid(DeleteAll(s, ids))
    ensures TotalStock(DeleteAll(s, ids)) == TotalStock(s)
  {
    if ids != [] {
      var d := DeleteAll(s, ids[..|ids| - 1]);
      DeleteAllKeepsValid(s, ids[..|ids| - 1]);
      DeleteKeepsValid(d, ids[|ids| - 1]);
      if ids[|ids| - 1] in d.products {
        DeleteStock(d, ids[|ids| - 1]);
      }
    }
  }

  /** Multi-delete keeps the invariant and, like the whole deletes it
      performs, conserves the total stock. */
  lemma MultiDeleteKeepsValid(s: Stores, ids: Option<seq<Id>>)
    requires Valid(s)
    ensures Valid(MultiDelete(s, ids).stores)
    ensures TotalStock(MultiDelete(s, ids).stores) == TotalStock(s)
  {
    if ids.Some? && ids.value != [] && Matched(s.products, ids.value) != {} {
      MultiDeleteIsDeleteAll(s, ids.value);
      DeleteAllKeepsValid(s, ids.value);
    }
  }

  // ---------------------------------------------------------------------
  // Voice delete

  /** Replacing one product and archiving a record under the next id moves
      stock by the two quantities involved. */
  lemma ReplaceAndArchiveStock(s: Stores, id: Id, p: Product, d: DeletedProduct)
    requires id in s.products && id < s.nextId
    requires s.nextId !in s.products && s.nextId !in s.archive
    ensures var s1 := Stores(s.products[id := p], s.archive[s.nextId := d], s.nextId + 1);
            && LiveStock(s1) == LiveStock(s) + p.quantity - s.products[id].quantity
            && ArchivedStock(s1) == ArchivedStock(s) + d.quantity
  {
    var pq := ProductQuantities(s.products);
    var aq := ArchivedQuantities(s.archive);
    FreshIdCountsNothing(s);
    ProductQuantitiesUpdate(s.products, id, p);
    SumUpdate(pq, id, p.quantity, s.nextId + 1);
    assert Get(pq, id) == s.products[id].quantity;
    ArchivedQuantitiesUpdate(s.archive, s.nextId, d);
    SumUpdate(aq, s.nextId, d.quantity, s.nextId + 1);
    assert Get(aq, s.nextId) == 0;
  }

  /** One item of a voice delete works on the caller's first matching
      product, if there is one; there is none exactly when no product of
      the caller's has a matching name, and then an ItemNotFound error is
      appended and nothing else changes. */
  lemma VoiceStepFinds(b: Batch, owner: UserId, it: VoiceParser.Intent)
    requires Valid(b.stores)
    ensures var s := b.stores;
            var found := FirstMatching(s.products, 0, s.nextId, VoiceMatch(owner, it.name));
            && (found.Some? ==>
                  && s.products[found.value].user == owner
                  && NameMatches(s.products[found.value].name, it.name)
                  && (forall j :: j in s.products && j < found.value ==>
                        !(s.products[j].user == owner && NameMatches(s.products[j].name, it.name))))
            && (found.None? <==>
                  forall id :: id in s.products ==>
                    !(s.products[id].user == owner && NameMatches(s.products[id].name, it.name)))
            && (found.None? ==> VoiceStep(b, owner, it) == b.(errors := b.errors + [ItemNotFound(it.name)]))
  {
    var s := b.stores;
    var f := VoiceMatch(owner, it.name);
    var found := FirstMatching(s.products, 0, s.nextId, f);
    if found.Some? {
      assert f(s.products[found.value]);
      forall j | j in s.products && j < found.value
        ensures !(s.products[j].user == owner && NameMatches(s.products[j].name, it.name))
      {
        assert !f(s.products[j]);
      }
    } else {
      forall id | id in s.products
        ensures !(s.products[id].user == owner && NameMatches(s.products[id].name, it.name))
      {
        assert id < s.nextId;
        assert !f(s.products[id]);
      }
    }
  }

  /** When the first match has fewer units than asked, a NotEnoughStock
      error with the available quantity is appended and nothing else
      changes. */
  lemma VoiceStepShort(b: Batch, owner: UserId, it: VoiceParser.Intent, id: Id)
    requires FirstMatching(b.stores.products, 0, b.stores.nextId, VoiceMatch(owner, it.name)) == Some(id)
    requires b.stores.products[id].quantity < it.qty
    ensures var p := b.stores.products[id];
            VoiceStep(b, owner, it) == b.(errors := b.errors + [NotEnoughStock(p.name, p.quantity)])
  {
  }

  /** Otherwise the asked units are taken from that product, whose other
      fields stay; the taken slice is archived under a fresh id; the product
      is OutOfStock exactly when nothing is left; and one `updated` entry
      is appended. */
  lemma VoiceStepTakes(b: Batch, owner: UserId, it: VoiceParser.Intent, id: Id)
    requires Valid(b.stores)
    requires FirstMatching(b.stores.products, 0, b.stores.nextId, VoiceMatch(owner, it.name)) == Some(id)
    requires b.stores.products[id].quantity >= it.qty
    ensures var s := b.stores;
            var r := VoiceStep(b, owner, it);
            var p := s.products[id];
            var left := p.quantity - it.qty;
            var q := r.stores.products[id];
            && r.stores.products == s.products[id := q]
            && q == p.(quantity := left, status := q.status)
            && q.quantity >= 0
            && (q.status == OutOfStock <==> q.quantity == 0)
            && (q.status == Active <==> q.quantity > 0)
            && s.nextId !in s.archive
            && r.stores.archive == s.archive[s.nextId := Slice(p, it.qty)]
            && r.stores.nextId == s.nextId + 1
            && r.errors == b.errors
            && r.updated == b.updated + [if left == 0 then NowOutOfStock(p.name) else Removed(it.qty, p.name, left)]
  {
    VoiceApplyTakes(b, it, id);
  }

  /** The taking branch of the loop body, for any product it is given. */
  lemma VoiceApplyTakes(b: Batch, it: VoiceParser.Intent, id: Id)
    requires id in b.stores.products && Stored(b.stores.products[id])
    requires b.stores.products[id].quantity >= it.qty
    ensures var s := b.stores;
            var r := VoiceApply(b, it, Some(id));
            var p := s.products[id];
            var left := p.quantity - it.qty;
            var q := p.(quantity := left, status := if left == 0 then OutOfStock else Active);
            && r.stores == Stores(s.products[id := q], s.archive[s.nextId := Slice(p, it.qty)], s.nextId + 1)
            && r.errors == b.errors
            && r.updated == b.updated + [if left == 0 then NowOutOfStock(p.name) else Removed(it.qty, p.name, left)]
  {
    TakeForm(b.stores, id, it.qty);
  }

  /** Taking every unit or fewer leaves a quantity of zero or more, and
      the status says which. */
  lemma TakeForm(s: Stores, id: Id, qty: int)
    requires id in s.products && Stored(s.products[id])
    requires s.products[id].quantity >= qty
    ensures var p := s.products[id];
            var left := p.quantity - qty;
            var q := p.(quantity := left, status := if left == 0 then OutOfStock else Active);
            Take(s, id, qty) == (Stores(s.products[id := q], s.archive[s.nextId := Slice(p, qty)], s.nextId + 1),
                                 if left == 0 then NowOutOfStock(p.name) else Removed(qty, p.name, left))
  {
    var p := s.products[id];
    var left := p.quantity - qty;
    var q0 := if left <= 0 then p.(quantity := 0, status := OutOfStock) else p.(quantity := left, status := Active);
    assert PreSave(q0) == q0;
  }

  /** The product the voice delete saves always passes the validators and
      the unique index, so the save the handler awaits cannot fail. */
  lemma VoiceStepSaveAccepted(s: Stores, id: Id, qty: int)
    requires Valid(s) && id in s.products && s.products[id].quantity >= qty
    ensures var p := s.products[id];
            var left := p.quantity - qty;
            && Acceptable(s.products, id, p.(quantity := left, status := Active))
            && Acceptable(s.products, id, p.(quantity := 0, status := OutOfStock))
  {
  }

  /** Every pass of the loop body adds exactly one entry to the report and
      keeps the entries before it. */
  lemma VoiceApplyReports(b: Batch, it: VoiceParser.Intent, found: Option<Id>)
    ensures var r := VoiceApply(b, it, found);
            && |r.updated| + |r.errors| == |b.updated| + |b.errors| + 1
            && b.updated <= r.updated && b.errors <= r.errors
  {
  }

  /** One item keeps the invariant and never removes a product. */
  lemma VoiceApplyKeepsValid(b: Batch, it: VoiceParser.Intent, found: Option<Id>)
    requires Valid(b.stores)
    ensures var r := VoiceApply(b, it, found);
            && Valid(r.stores)
            && r.stores.products.Keys == b.stores.products.Keys
  {
    var s := b.stores;
    if found.Some? && found.value in s.products && s.products[found.value].quantity >= it.qty {
      var id := found.value;
      var p := s.products[id];
      var r := VoiceApply(b, it, found);
      VoiceApplyTakes(b, it, id);
      var q := r.stores.products[id];
      var q0 := p.(quantity := q.quantity, status := q.status);
      assert PreSave(q0) == q;
      VoiceStepSaveAccepted(s, id, it.qty);
      SaveKeepsValid(s, id, q0);
      var s1 := s.(products := s.products[id := q]);
      AllocateKeepsValid(s1);
      ArchiveKeepsValid(s1.(nextId := s.nextId + 1), s.nextId, Slice(p, it.qty));
      assert r.stores == s1.(nextId := s.nextId + 1).(archive := s.archive[s.nextId := Slice(p, it.qty)]);
    }
  }

  /** One item moves the taken units from stock into the archive: the
      total stock is conserved. */
  lemma VoiceApplyStock(b: Batch, it: VoiceParser.Intent, found: Option<Id>)
    requires Valid(b.stores)
    ensures TotalStock(VoiceApply(b, it, found).stores) == TotalStock(b.stores)
  {
    var s := b.stores;
    if found.Some? && found.value in s.products && s.products[found.value].quantity >= it.qty {
      var id := found.value;
      var p := s.products[id];
      var r := VoiceApply(b, it, found);
      VoiceApplyTakes(b, it, id);
      var q := r.stores.products[id];
      assert id < s.nextId && s.nextId !in s.products && s.nextId !in s.archive;
      assert r.stores == Stores(s.products[id := q], s.archive[s.nextId := Slice(p, it.qty)], s.nextId + 1);
      ReplaceAndArchiveStock(s, id, q, Slice(p, it.qty));
      assert q.quantity == p.quantity - it.qty;
    } else {
      assert VoiceApply(b, it, found).stores == s;
    }
  }

  lemma VoiceStepKeepsValid(b: Batch, owner: UserId, it: VoiceParser.Intent)
    requires Valid(b.stores)
    ensures var r := VoiceStep(b, owner, it);
            && Valid(r.stores)
            && r.stores.products.Keys == b.stores.products.Keys
            && TotalStock(r.stores) == TotalStock(b.stores)
            && |r.updated| + |r.errors| == |b.updated| + |b.errors| + 1
            && b.updated <= r.updated && b.errors <= r.errors
  {
    var found := FirstMatching(b.stores.products, 0, b.stores.nextId, VoiceMatch(owner, it.name));
    VoiceApplyKeepsValid(b, it, found);
    VoiceApplyStock(b, it, found);
    VoiceApplyReports(b, it, found);
  }

  /** Running the loop over `xs` and then over `ys` is running it over
      `xs + ys`: items are handled in order, and each sees the stores the
      items before it left. */
  lemma {:induction false} VoiceLoopAppend(b: Batch, owner: UserId, xs: seq<VoiceParser.Intent>, ys: seq<VoiceParser.Intent>)
    ensures VoiceLoop(b, owner, xs + ys) == VoiceLoop(VoiceLoop(b, owner, xs), owner, ys)
  {
    if ys == [] {
      assert xs + ys == xs;
    } else {
      var zs := xs + ys;
      assert zs[..|zs| - 1] == xs + ys[..|ys| - 1];
      assert zs[|zs| - 1] == ys[|ys| - 1];
      VoiceLoopAppend(b, owner, xs, ys[..|ys| - 1]);
    }
  }

  /** The loop keeps the invariant, removes no product and conserves the
      total stock. */
  lemma {:induction false} VoiceLoopKeepsValid(b: Batch, owner: UserId, items: seq<VoiceParser.Intent>)
    requires Valid(b.stores)
    ensures var r := VoiceLoop(b, owner, items);
            && Valid(r.stores)
            && r.stores.products.Keys == b.stores.products.Keys
            && TotalStock(r.stores) == TotalStock(b.stores)
  {
    if items != [] {
      var m := VoiceLoop(b, owner, items[..|items| - 1]);
      VoiceLoopKeepsValid(b, owner, items[..|items| - 1]);
      VoiceStepKeepsValid(m, owner, items[|items| - 1]);
    }
  }

  /** The loop reports exactly one entry per item, after the entries it
      started with. */
  lemma {:induction false} VoiceLoopReports(b: Batch, owner: UserId, items: seq<VoiceParser.Intent>)
    ensures var r := VoiceLoop(b, owner, items);
            && |r.updated| + |r.errors| == |b.updated| + |b.errors| + |items|
            && b.updated <= r.updated && b.errors <= r.errors
  {
    if items != [] {
      var m := VoiceLoop(b, owner, items[..|items| - 1]);
      var it := items[|items| - 1];
      VoiceLoopReports(b, owner, items[..|items| - 1]);
      VoiceApplyReports(m, it, FirstMatching(m.stores.products, 0, m.stores.nextId, VoiceMatch(owner, it.name)));
    }
  }

  /** Voice delete answers BadRequest for an empty command and "no valid
      items" when the reply yields no items (a reply that is not JSON
      yields none); both change nothing. Otherwise it reports one entry per
      item, keeps the invariant, removes no product row and conserves the
      total stock. */
  lemma VoiceDeleteReplies(s: Stores, owner: UserId, command: string, content: VoiceParser.ProviderContent)
    requires Valid(s)
    ensures var o := VoiceDelete(s, owner, command, content);
            && (command == [] ==> o == Outcome(s, BadRequest))
            && (command != [] && content.NotJson? ==> o == Outcome(s, NoValidItems))
            && (command != [] && content.Json? && content.items == [] ==> o == Outcome(s, NoValidItems))
            && (command != [] && content.Json? && content.items != [] ==>
                  && o.response.VoiceReport?
                  && |o.response.updated| + |o.response.errors| == |content.items|)
            && Valid(o.stores)
            && o.stores.products.Keys == s.products.Keys
            && TotalStock(o.stores) == TotalStock(s)
  {
    if command != [] && content.Json? && content.items != [] {
      VoiceLoopKeepsValid(Batch(s, [], []), owner, content.items);
      VoiceLoopReports(Batch(s, [], []), owner, content.items);
    }
  }

  // ---------------------------------------------------------------------
  // Restore

  /** Taking a record out of the archive takes its quantity out of the
      archived stock. */
  lemma UnarchiveStock(s: Stores, id: Id)
    requires id in s.archive && id < s.nextId
    ensures ArchivedStock(s.(archive := s.archive - {id})) == ArchivedStock(s) - s.archive[id].quantity
  {
    var aq := ArchivedQuantities(s.archive);
    ArchivedQuantitiesRemove(s.archive, id);
    SumRemove(aq, id, s.nextId);
    assert Get(aq, id) == s.archive[id].quantity;
  }

  /** Restore answers NotFound, and changes nothing, for an id that names
      no archive record. */
  lemma RestoreNotFound(s: Stores, id: Id)
    ensures Restore(s, id).response == NotFound <==> id !in s.archive
    ensures id !in s.archive ==> Restore(s, id).stores == s
  {
  }

  /** When a live product of the record's user has exactly its name, the
      first such product absorbs the record's quantity (no new product is
      made, no field but the quantity changes, the status is not
      recomputed) and the record leaves the archive; the save fails, and
      nothing changes, exactly when the merged quantity would be
      negative. */
  lemma RestoreMerges(s: Stores, id: Id, k: Id)
    requires Valid(s) && id in s.archive
    requires FirstMatching(s.products, 0, s.nextId, RestoreMatch(s.archive[id])) == Some(k)
    ensures var d := s.archive[id];
            var p := s.products[k];
            var o := Restore(s, id);
            && p.user == d.user && p.name == d.name
            && (forall j :: j in s.products && j < k ==> !(s.products[j].user == d.user && s.products[j].name == d.name))
            && (o.response.Restored? <==> p.quantity + d.quantity >= 0)
            && (o.response.Restored? ==>
                  && o.response == Restored(k, p.(quantity := p.quantity + d.quantity))
                  && o.stores == Stores(s.products[k := o.response.product], s.archive - {id}, s.nextId))
            && (!o.response.Restored? ==> o == Outcome(s, ServerError))
  {
    var d := s.archive[id];
    var f := RestoreMatch(d);
    var p := s.products[k];
    assert f(p);
    forall j | j in s.products && j < k
      ensures !(s.products[j].user == d.user && s.products[j].name == d.name)
    {
      assert !f(s.products[j]);
    }
    var merged := p.(quantity := p.quantity + d.quantity);
    assert Stored(p);
    assert PreSave(merged) == merged;
  }

  /** When no live product of the record's user has its name, restore
      re-creates the product from the record under a fresh id, with the
      schema's `trim` setters applied, and the record leaves the archive;
      the save fails, and nothing changes, exactly when the trimmed name is
      empty, the quantity is negative or the sku is taken. */
  lemma RestoreRevives(s: Stores, id: Id)
    requires Valid(s) && id in s.archive
    requires FirstMatching(s.products, 0, s.nextId, RestoreMatch(s.archive[id])) == None
    ensures var d := s.archive[id];
            var o := Restore(s, id);
            && (forall j :: j in s.products ==> !(s.products[j].user == d.user && s.products[j].name == d.name))
            && (o.response.Restored? <==>
                  Trim(d.name) != [] && d.quantity >= 0 && SkuFree(s.products, TrimOption(d.sku)))
            && (o.response.Restored? ==>
                  var p := o.response.product;
                  && o.response.id == s.nextId && s.nextId !in s.products
                  && o.stores == Stores(s.products[s.nextId := p], s.archive - {id}, s.nextId + 1)
                  && p.name == Trim(d.name) && p.normalizedName == Lower(p.name)
                  && p.sku == TrimOption(d.sku) && p.category == TrimOption(d.category)
                  && p.unit == d.unit && p.price == d.price && p.quantity == d.quantity
                  && p.minStockLevel == d.minStockLevel
                  && p.createdBy == d.createdBy && p.user == d.user
                  && p.isActive && p.status == Unset)
            && (!o.response.Restored? ==> o == Outcome(s, ServerError))
  {
    var d := s.archive[id];
    var f := RestoreMatch(d);
    forall j | j in s.products
      ensures !(s.products[j].user == d.user && s.products[j].name == d.name)
    {
      assert j < s.nextId;
      assert !f(s.products[j]);
    }
  }

  lemma RestoreKeepsValid(s: Stores, id: Id)
    requires Valid(s)
    ensures Valid(Restore(s, id).stores)
  {
    if id in s.archive {
      match FirstMatching(s.products, 0, s.nextId, RestoreMatch(s.archive[id]))
      case Some(k) => RestoreIntoKeepsValid(s, id, k);
      case None => ReviveKeepsValid(s, id);
    }
  }

  lemma RestoreIntoKeepsValid(s: Stores, id: Id, k: Id)
    requires Valid(s) && id in s.archive && k in s.products
    ensures Valid(RestoreInto(s, id, k).stores)
  {
    var d := s.archive[id];
    var p := s.products[k];
    var merged := p.(quantity := p.quantity + d.quantity);
    if Acceptable(s.products, k, merged) {
      var s0 := Stores(s.products, s.archive - {id}, s.nextId);
      RemoveKeepsValid(s, id);
      assert Stored(p);
      assert k !in s0.archive;
      SaveKeepsValid(s0, k, merged);
      var q := PreSave(merged);
      assert RestoreInto(s, id, k) == Outcome(Stores(s.products[k := q], s.archive - {id}, s.nextId), Restored(k, q));
    }
  }

  lemma ReviveKeepsValid(s: Stores, id: Id)
    requires Valid(s) && id in s.archive
    ensures Valid(Revive(s, id).stores)
  {
    var d := s.archive[id];
    var doc := NewDocument(ReviveFields(d));
    if Acceptable(s.products, s.nextId, doc) {
      var s0 := s.(archive := s.archive - {id});
      RemoveKeepsValid(s, id);
      var s1 := s0.(nextId := s.nextId + 1);
      AllocateKeepsValid(s0);
      NewDocumentTrimmed(ReviveFields(d));
      SaveKeepsValid(s1, s.nextId, doc);
      assert Revive(s, id).stores == s1.(products := s1.products[s.nextId := PreSave(doc)]);
    }
  }

  /** Replacing one product and taking one record out of the archive move
      stock by the quantities involved. */
  lemma MergeStock(s: Stores, id: Id, k: Id, p: Product)
    requires id in s.archive && id < s.nextId && k in s.products && k < s.nextId
    ensures var s1 := Stores(s.products[k := p], s.archive - {id}, s.nextId);
            && LiveStock(s1) == LiveStock(s) + p.quantity - s.products[k].quantity
            && ArchivedStock(s1) == ArchivedStock(s) - s.archive[id].quantity
  {
    var pq := ProductQuantities(s.products);
    UnarchiveStock(s, id);
    ProductQuantitiesUpdate(s.products, k, p);
    SumUpdate(pq, k, p.quantity, s.nextId);
    assert Get(pq, k) == s.products[k].quantity;
  }

  /** Saving a product under the next id and taking one record out of the
      archive move stock by the quantities involved. */
  lemma ReviveStock(s: Stores, id: Id, p: Product)
    requires id in s.archive && id < s.nextId
    requires s.nextId !in s.products && s.nextId !in s.archive
    ensures var s1 := Stores(s.products[s.nextId := p], s.archive - {id}, s.nextId + 1);
            && LiveStock(s1) == LiveStock(s) + p.quantity
            && ArchivedStock(s1) == ArchivedStock(s) - s.archive[id].quantity
  {
    var s0 := s.(archive := s.archive - {id});
    UnarchiveStock(s, id);
    InsertFreshStock(s0, p);
  }

  /** A successful restore moves the record's quantity from the archive
      back into stock: the total is conserved. */
  lemma RestoreStock(s: Stores, id: Id)
    requires Valid(s) && id in s.archive
    ensures var o := Restore(s, id);
            var q := s.archive[id].quantity;
            o.response.Restored? ==>
              && LiveStock(o.stores) == LiveStock(s) + q
              && ArchivedStock(o.stores) == ArchivedStock(s) - q
              && TotalStock(o.stores) == TotalStock(s)
  {
    assert id < s.nextId;
    match FirstMatching(s.products, 0, s.nextId, RestoreMatch(s.archive[id]))
    case Some(k) => RestoreIntoStock(s, id, k);
    case None => ReviveMovesStock(s, id);
  }

  lemma RestoreIntoStock(s: Stores, id: Id, k: Id)
    requires id in s.archive && id < s.nextId && k in s.products && k < s.nextId
    ensures var o := RestoreInto(s, id, k);
            var q := s.archive[id].quantity;
            o.response.Restored? ==>
              && LiveStock(o.stores) == LiveStock(s) + q
              && ArchivedStock(o.stores) == ArchivedStock(s) - q
              && TotalStock(o.stores) == TotalStock(s)
  {
    var o := RestoreInto(s, id, k);
    if o.response.Restored? {
      var p := o.response.product;
      assert p.quantity == s.products[k].quantity + s.archive[id].quantity;
      assert o.stores == Stores(s.products[k := p], s.archive - {id}, s.nextId);
      MergeStock(s, id, k, p);
    }
  }

  lemma ReviveMovesStock(s: Stores, id: Id)
    requires Valid(s) && id in s.archive
    ensures var o := Revive(s, id);
            var q := s.archive[id].quantity;
            o.response.Restored? ==>
              && LiveStock(o.stores) == LiveStock(s) + q
              && ArchivedStock(o.stores) == ArchivedStock(s) - q
              && TotalStock(o.stores) == TotalStock(s)
  {
    var o := Revive(s, id);
    if o.response.Restored? {
      var p := o.response.product;
      assert p.quantity == s.archive[id].quantity;
      assert o.stores == Stores(s.products[s.nextId := p], s.archive - {id}, s.nextId + 1);
      ReviveStock(s, id, p);
    }
  }

  // ---------------------------------------------------------------------
  // Permanent delete

  /** Permanent delete answers NotFound for an id that names no archive
      record; otherwise the record is gone for good, with its quantity, and
      a later restore of the id answers NotFound. The live collection is
      never touched. */
  lemma PermanentDeleteRemoves(s: Stores, id: Id)
    requires Valid(s)
    ensures var o := PermanentDelete(s, id);
            && (id !in s.archive ==> o == Outcome(s, NotFound))
            && (id in s.archive ==>
                  && o.response == PermanentlyDeleted(id)
                  && o.stores == s.(archive := s.archive - {id})
                  && ArchivedStock(o.stores) == ArchivedStock(s) - s.archive[id].quantity
                  && Restore(o.stores, id) == Outcome(o.stores, NotFound))
            && Valid(o.stores)
  {
    RemoveKeepsValid(s, id);
    if id in s.archive {
      UnarchiveStock(s, id);
    }
  }

  // ---------------------------------------------------------------------
  // Delete, then restore

  /** Restoring a deleted product gives its units back to the same user
      under the same name: the restore succeeds, the archive is as before
      and no stock is lost or made. */
  lemma DeleteThenRestore(s: Stores, id: Id)
    requires Valid(s) && id in s.products
    ensures var s1 := Delete(s, id).stores;
            var o := Restore(s1, id);
            && o.response.Restored?
            && o.stores.archive == s.archive
            && LiveStock(o.stores) == LiveStock(s)
            && TotalStock(o.stores) == TotalStock(s)
  {
    var s1 := Delete(s, id).stores;
    DeleteStock(s, id);
    DeleteKeepsValid(s, id);
    RestoreAfterDelete(s, id);
    DeleteArchives(s, id);
    RestoreStock(s1, id);
  }

  /** After a delete, the restore of the record always succeeds and leaves
      the archive as it was before the delete. */
  lemma RestoreAfterDelete(s: Stores, id: Id)
    requires Valid(s) && id in s.products
    ensures var o := Restore(Delete(s, id).stores, id);
            o.response.Restored? && o.stores.archive == s.archive
  {
    var p := s.products[id];
    var s1 := Delete(s, id).stores;
    DeleteArchives(s, id);
    match FirstMatching(s1.products, 0, s1.nextId, RestoreMatch(Snapshot(p)))
    case Some(k) =>
      RestoreIntoAfterDelete(s, id, k);
    case None =>
      ReviveAfterDelete(s, id);
  }

  /** When the user has no other product of that name, the deleted product
      comes back whole under a fresh id, with every archived field, its
      normalised name, and only `isActive` and `status` at their
      defaults. */
  lemma DeleteThenRestoreWhole(s: Stores, id: Id)
    requires Valid(s) && id in s.products
    requires var p := s.products[id];
             forall j :: j in s.products && j != id ==> !(s.products[j].user == p.user && s.products[j].name == p.name)
    ensures var p := s.products[id];
            var o := Restore(Delete(s, id).stores, id);
            o == Outcome(Stores((s.products - {id})[s.nextId := p.(isActive := true, status := Unset)], s.archive, s.nextId + 1),
                         Restored(s.nextId, p.(isActive := true, status := Unset)))
  {
    var p := s.products[id];
    var s1 := Delete(s, id).stores;
    DeleteArchives(s, id);
    match FirstMatching(s1.products, 0, s1.nextId, RestoreMatch(Snapshot(p)))
    case Some(k) =>
      assert false;
    case None =>
      ReviveAfterDelete(s, id);
  }

  /** After a delete, merging the record into another live product always
      succeeds, as both quantities are not negative, and the archive is as
      before the delete. */
  lemma RestoreIntoAfterDelete(s: Stores, id: Id, k: Id)
    requires Valid(s) && id in s.products && k in s.products && k != id
    ensures var s1 := Stores(s.products - {id}, s.archive[id := Snapshot(s.products[id])], s.nextId);
            var o := RestoreInto(s1, id, k);
            o.response.Restored? && o.stores.archive == s.archive
  {
    var s1 := Stores(s.products - {id}, s.archive[id := Snapshot(s.products[id])], s.nextId);
    var q := s.products[k];
    var merged := q.(quantity := q.quantity + s.products[id].quantity);
    assert s1.products[k] == q && s1.archive[id] == Snapshot(s.products[id]);
    assert Stored(q) && Stored(s.products[id]);
    assert Conforms(merged);
    assert Acceptable(s1.products, k, merged) by {
      if merged.sku.Some? {
        forall j | j in s1.products && j != k ensures s1.products[j].sku != merged.sku {
          assert s1.products[j] == s.products[j];
        }
      }
    }
    assert id !in s.archive;
    assert s1.archive - {id} == s.archive;
  }

  /** A deleted product's sku is free once it is gone. */
  lemma SkuFreeAfterDelete(s: Stores, id: Id)
    requires Valid(s) && id in s.products
    ensures SkuFree(s.products - {id}, s.products[id].sku)
  {
    var p := s.products[id];
    if p.sku.Some? {
      forall j | j in s.products - {id} ensures s.products[j].sku != p.sku {
        assert j != id;
      }
    }
  }

  /** After a delete, re-creating the record as a new product always
      succeeds, as its sku is free again, and gives the product back
      whole. */
  lemma ReviveAfterDelete(s: Stores, id: Id)
    requires Valid(s) && id in s.products
    ensures var p := s.products[id];
            var s1 := Stores(s.products - {id}, s.archive[id := Snapshot(p)], s.nextId);
            Revive(s1, id) == Outcome(Stores((s.products - {id})[s.nextId := p.(isActive := true, status := Unset)], s.archive, s.nextId + 1),
                                      Restored(s.nextId, p.(isActive := true, status := Unset)))
  {
    var p := s.products[id];
    var s1 := Stores(s.products - {id}, s.archive[id := Snapshot(p)], s.nextId);
    DeleteArchives(s, id);
    assert s1.archive - {id} == s.archive;
    var doc := NewDocument(ReviveFields(Snapshot(p)));
    assert Stored(p);
    ReviveSnapshot(p);
    TrimmedIff(p.name);
    if p.sku.Some? { TrimmedIff(p.sku.value); }
    SkuFreeAfterDelete(s, id);
    assert doc.sku == p.sku;
    assert s1.archive[id] == Snapshot(p);
    assert Acceptable(s1.products, s1.nextId, doc);
    ReviveAccepted(s1, id);
  }

  /** A revive the validators accept. */
  lemma ReviveAccepted(s: Stores, id: Id)
    requires id in s.archive
    requires Acceptable(s.products, s.nextId, NewDocument(ReviveFields(s.archive[id])))
    ensures var q := PreSave(NewDocument(ReviveFields(s.archive[id])));
            Revive(s, id) == Outcome(Stores(s.products[s.nextId := q], s.archive - {id}, s.nextId + 1), Restored(s.nextId, q))
  {
  }
}
