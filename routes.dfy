/** The route handlers of src/routes/products.js as methods on the two
    collections they update in place. Each handler is proved to leave the
    collections and answer exactly as its specification function in
    Lifecycle says, and to keep the store invariant; what the handlers
    promise is proved about those functions in LifecycleLemmas. */
module ProductRoutes {
  import opened Wrappers
  import opened Models
  import opened Stores
  import StoreModel = Stores
  import opened Lifecycle
  import opened LifecycleLemmas
  import VoiceParser

  /** The Product collection, the DeletedProduct collection, and the next
      fresh document id. */
  class Inventory {
    var products: map<Id, Product>
    var archive: map<Id, DeletedProduct>
    var nextId: nat

    function State(): Stores
      reads this
    {
      Stores(products, archive, nextId)
    }

    ghost predicate Valid()
      reads this
    {
      StoreModel.Valid(State())
    }

    /** Two empty collections. */
    constructor ()
      ensures State() == Stores(map[], map[], 0)
      ensures Valid()
    {
      products := map[];
      archive := map[];
      nextId := 0;
    }

    /** `Product.findOne(query)`: the earliest created product the query
        matches. */
    method FindOne(matches: Product -> bool) returns (r: Option<Id>)
      ensures r == FirstMatching(products, 0, nextId, matches)
    {
      r := None;
      var i := 0;
      while i < nextId && r.None?
        invariant 0 <= i <= nextId
        invariant FirstMatching(products, 0, nextId, matches)
                  == if r.Some? then r else FirstMatching(products, i, nextId, matches)
      {
        if i in products && matches(products[i]) {
          r := Some(i);
        }
        i := i + 1;
      }
    }

    /** `Product.create(doc)`: the validators and the unique sku index, then
        the pre-save hook, under a fresh id. `None` is a refused save. */
    method Insert(doc: Product) returns (r: Option<(Id, Product)>)
      modifies this
      ensures Acceptable(old(products), old(nextId), doc) ==>
                && r == Some((old(nextId), PreSave(doc)))
                && products == old(products)[old(nextId) := PreSave(doc)]
                && nextId == old(nextId) + 1
      ensures !Acceptable(old(products), old(nextId), doc) ==>
                r.None? && products == old(products) && nextId == old(nextId)
      ensures archive == old(archive)
    {
      if !Acceptable(products, nextId, doc) {
        return None;
      }
      var p := PreSave(doc);
      products := products[nextId := p];
      r := Some((nextId, p));
      nextId := nextId + 1;
    }

    /** `doc.save()` on a stored product: the validators and the unique sku
        index, then the pre-save hook. */
    method Save(id: Id, doc: Product) returns (ok: bool)
      modifies this
      ensures ok == Acceptable(old(products), id, doc)
      ensures products == if ok then old(products)[id := PreSave(doc)] else old(products)
      ensures archive == old(archive) && nextId == old(nextId)
    {
      ok := Acceptable(products, id, doc);
      if ok {
        products := products[id := PreSave(doc)];
      }
    }

    /** `DeletedProduct.create(record)` under a fresh id. */
    method ArchiveNew(d: DeletedProduct) returns (id: Id)
      modifies this
      ensures id == old(nextId)
      ensures archive == old(archive)[id := d] && nextId == old(nextId) + 1
      ensures products == old(products)
    {
      id := nextId;
      archive := archive[id := d];
      nextId := nextId + 1;
    }

    /** POST / (src/routes/products.js:150-184). */
    method Create(owner: UserId, req: CreateRequest) returns (response: Response)
      requires Valid()
      modifies this
      ensures Valid()
      ensures Outcome(State(), response) == Lifecycle.Create(old(State()), owner, req)
    {
      CreateKeepsValid(State(), owner, req);
      if req.name.None? || req.name.value == [] || req.quantity.Null? {
        return BadRequest;
      }
      var r := Insert(NewDocument(CreateFields(req, owner)));
      if r.None? {
        return ServerError;
      }
      response := Created(r.value.0, r.value.1);
      assert Outcome(State(), response) == Lifecycle.Create(old(State()), owner, req);
    }

    /** POST /:id/adjust (src/routes/products.js:200-209). */
    method Adjust(id: Id, delta: Option<int>) returns (response: Response)
      requires Valid()
      modifies this
      ensures Valid()
      ensures Outcome(State(), response) == Lifecycle.Adjust(old(State()), id, delta)
    {
      AdjustKeepsValid(State(), id, delta);
      if id !in products {
        return NotFound;
      }
      AdjustSaveAccepted(State(), id, delta);
      var product := products[id];
      product := product.(quantity := AdjustedQuantity(product.quantity, delta));
      // The save cannot be refused (AdjustSaveAccepted).
      var _ := Save(id, product);
      response := Adjusted(PreSave(product));
    }

    /** DELETE /:id (src/routes/products.js:213-231). */
    method Delete(id: Id) returns (response: Response)
      requires Valid()
      modifies this
      ensures Valid()
      ensures Outcome(State(), response) == Lifecycle.Delete(old(State()), id)
    {
      DeleteKeepsValid(State(), id);
      if id !in products {
        return NotFound;
      }
      var product := products[id];
      archive := archive[id := Snapshot(product)];
      products := products - {id};
      response := Deleted;
    }

    /** `Product.find({ _id: { $in: ids } })`: the ids of the list that
        name a live product. */
    method FindIn(ids: seq<Id>) returns (found: set<Id>)
      ensures found == Matched(products, ids)
    {
      found := {};
      for i := 0 to |ids|
        invariant found == Matched(products, ids[..i])
      {
        assert ids[..i + 1] == ids[..i] + [ids[i]];
        if ids[i] in products {
          found := found + {ids[i]};
        }
      }
      assert ids[..|ids|] == ids;
    }

    /** POST /multi-delete (src/routes/products.js:326-359). */
    method MultiDelete(ids: Option<seq<Id>>) returns (response: Response)
      requires Valid()
      modifies this
      ensures Valid()
      ensures Outcome(State(), response) == Lifecycle.MultiDelete(old(State()), ids)
    {
      MultiDeleteKeepsValid(State(), ids);
      if ids.None? || |ids.value| == 0 {
        return BadRequest;
      }
      var found := FindIn(ids.value);
      if |found| == 0 {
        return NotFound;
      }
      archive := archive + Snapshots(products, found);
      products := products - found;
      response := MultiDeleted(|found|, |found|);
      assert Outcome(State(), response) == Lifecycle.MultiDelete(old(State()), ids);
    }

    /** POST /voice-delete (src/routes/products.js:387-453). `content` is
        the language model's reply to the command. */
    method VoiceDelete(owner: UserId, command: string, content: VoiceParser.ProviderContent) returns (response: Response)
      requires Valid()
      modifies this
      ensures Valid()
      ensures Outcome(State(), response) == Lifecycle.VoiceDelete(old(State()), owner, command, content)
    {
      if command == [] {
        return BadRequest;
      }
      var items := VoiceParser.ParseDeleteCommand(content);
      if |items| == 0 {
        return NoValidItems;
      }
      var updated: seq<ItemUpdate> := [];
      var errors: seq<ItemError> := [];
      for k := 0 to |items|
        invariant Valid()
        invariant Batch(State(), updated, errors) == VoiceLoop(Batch(old(State()), [], []), owner, items[..k])
      {
        assert items[..k + 1][..k] == items[..k];
        updated, errors := VoiceItem(owner, items[k], updated, errors);
      }
      assert items[..|items|] == items;
      response := VoiceReport(updated, errors);
    }

    /** One pass of the voice delete's loop, for the item `it`, given the
        report so far. */
    method VoiceItem(owner: UserId, it: VoiceParser.Intent, updated: seq<ItemUpdate>, errors: seq<ItemError>)
      returns (updated': seq<ItemUpdate>, errors': seq<ItemError>)
      requires Valid()
      modifies this
      ensures Valid()
      ensures Batch(State(), updated', errors') == VoiceStep(Batch(old(State()), updated, errors), owner, it)
    {
      var b := Batch(State(), updated, errors);
      VoiceStepKeepsValid(b, owner, it);
      updated', errors' := updated, errors;
      var found := FindOne(VoiceMatch(owner, it.name));
      if found.None? {
        errors' := errors + [ItemNotFound(it.name)];
        return;
      }
      var id := found.value;
      var product := products[id];
      if product.quantity < it.qty {
        errors' := errors + [NotEnoughStock(product.name, product.quantity)];
        return;
      }
      var entry := Take(id, it.qty);
      updated' := updated + [entry];
      assert Lifecycle.Take(b.stores, id, it.qty) == (State(), entry);
    }

    /** Taking `qty` units of the product `id` (the body of the voice
        delete's loop once the product is found and holds enough): the slice
        is archived, then the product is saved with what is left. */
    method Take(id: Id, qty: int) returns (entry: ItemUpdate)
      requires Valid() && id in products && products[id].quantity >= qty
      modifies this
      ensures (State(), entry) == Lifecycle.Take(old(State()), id, qty)
    {
      VoiceStepSaveAccepted(State(), id, qty);
      var product := products[id];
      var before := product;
      var _ := ArchiveNew(Slice(product, qty));
      product := product.(quantity := product.quantity - qty);
      var ok;
      if product.quantity <= 0 {
        product := product.(quantity := 0, status := OutOfStock);
        ok := Save(id, product);
        entry := NowOutOfStock(product.name);
      } else {
        product := product.(status := Active);
        ok := Save(id, product);
        entry := Removed(qty, product.name, product.quantity);
      }
      // Neither save can be refused (VoiceStepSaveAccepted).
      assert ok;
    }

    /** POST /restore/:id (src/routes/products.js:505-542). */
    method Restore(id: Id) returns (response: Response)
      requires Valid()
      modifies this
      ensures Valid()
      ensures Outcome(State(), response) == Lifecycle.Restore(old(State()), id)
    {
      RestoreKeepsValid(State(), id);
      if id !in archive {
        return NotFound;
      }
      var found := FindOne(RestoreMatch(archive[id]));
      if found.Some? {
        response := RestoreInto(id, found.value);
      } else {
        response := Revive(id);
      }
    }

    /** The restore's merge branch: the archived quantity added to the live
        product `k`, then the record removed. */
    method RestoreInto(id: Id, k: Id) returns (response: Response)
      requires id in archive && k in products
      modifies this
      ensures Outcome(State(), response) == Lifecycle.RestoreInto(old(State()), id, k)
    {
      var product := products[k].(quantity := products[k].quantity + archive[id].quantity);
      var ok := Save(k, product);
      if !ok {
        return ServerError;
      }
      archive := archive - {id};
      response := Restored(k, PreSave(product));
    }

    /** The restore's other branch: the record re-created as a new product,
        then removed. */
    method Revive(id: Id) returns (response: Response)
      requires id in archive
      modifies this
      ensures Outcome(State(), response) == Lifecycle.Revive(old(State()), id)
    {
      var r := Insert(NewDocument(ReviveFields(archive[id])));
      if r.None? {
        return ServerError;
      }
      archive := archive - {id};
      response := Restored(r.value.0, r.value.1);
    }

    /** DELETE /permanent/:id (src/routes/products.js:546-564). */
    method PermanentDelete(id: Id) returns (response: Response)
      requires Valid()
      modifies this
      ensures Valid()
      ensures Outcome(State(), response) == Lifecycle.PermanentDelete(old(State()), id)
    {
      PermanentDeleteRemoves(State(), id);
      if id !in archive {
        return NotFound;
      }
      archive := archive - {id};
      response := PermanentlyDeleted(id);
    }
  }
}
