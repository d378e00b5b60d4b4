/** The product lifecycle of src/routes/products.js as a state machine over
    the two stores: one function per route handler, from the stores before
    the request to the stores after it and the handler's reply. These
    functions are the specification the handler methods of ProductRoutes
    are proved against; the lemmas in LifecycleLemmas state what the
    handlers promise. */
module Lifecycle {
  import opened Wrappers
  import opened Text
  import opened Models
  import opened Stores
  import VoiceParser

  /** One entry of the voice delete's `updated` list. */
  datatype ItemUpdate =
    | NowOutOfStock(name: string)
    | Removed(qty: int, name: string, remaining: int)

  /** One entry of the voice delete's `errors` list. */
  datatype ItemError =
    | ItemNotFound(pattern: string)
    | NotEnoughStock(name: string, available: int)

  /** What a handler answers; HTTP status codes and JSON shapes are left to
      the transport. `ServerError` is a save the validators or the unique
      index refused: the error is passed to `next(e)`. */
  datatype Response =
    | Created(id: Id, product: Product)
    | Adjusted(product: Product)
    | Deleted
    | MultiDeleted(deletedCount: nat, archivedCount: nat)
    | NoValidItems
    | VoiceReport(updated: seq<ItemUpdate>, errors: seq<ItemError>)
    | Restored(id: Id, product: Product)
    | PermanentlyDeleted(id: Id)
    | BadRequest
    | NotFound
    | ServerError

  datatype Outcome = Outcome(stores: Stores, response: Response)

  /** A request-body field that may be missing, `null`, or given. */
  datatype Field<T> = Absent | Null | Given(value: T)

  /** The body of `POST /` (create). A `name` that is missing or `null` is
      `None`. */
  datatype CreateRequest = CreateRequest(
    name: Option<string>,
    quantity: Field<int>,
    unit: Option<string>,
    category: Option<string>,
    sku: Option<string>,
    minStockLevel: Option<int>,
    price: Option<int>)

  function Max(a: int, b: int): int
  {
    if a >= b then a else b
  }

  // ---------------------------------------------------------------------
  // Create (src/routes/products.js:150-184)

  /** The fields the create handler passes to `Product.create`, after its
      own destructuring defaults (quantity 0, unit `pcs`, minStockLevel 5,
      price 0). */
  function CreateFields(req: CreateRequest, owner: UserId): ProductFields
    requires req.name.Some?
  {
    var name := req.name.value;
    var quantity := if req.quantity.Given? then req.quantity.value else 0;
    ProductFields(name, Some(Lower(name)), req.sku, req.category,
                  Some(OrElse(req.unit, "pcs")), Some(OrElse(req.price, 0)),
                  Some(quantity), Some(OrElse(req.minStockLevel, 5)), owner, owner)
  }

  /** The create request is rejected when the name is missing or empty or
      the quantity is `null`. */
  predicate CreateRejected(req: CreateRequest)
  {
    req.name.None? || req.name.value == [] || req.quantity.Null?
  }

  function Create(s: Stores, owner: UserId, req: CreateRequest): Outcome
  {
    if CreateRejected(req) then Outcome(s, BadRequest)
    else
      var doc := NewDocument(CreateFields(req, owner));
      if Acceptable(s.products, s.nextId, doc) then
        var p := PreSave(doc);
        Outcome(s.(products := s.products[s.nextId := p], nextId := s.nextId + 1), Created(s.nextId, p))
      else Outcome(s, ServerError)
  }

  // ---------------------------------------------------------------------
  // Adjust (src/routes/products.js:200-209; the second registration at
  // 365-383 is never reached)

  /** `Math.max(0, (product.quantity || 0) + Number(delta || 0))`. */
  function AdjustedQuantity(quantity: int, delta: Option<int>): int
  {
    Max(0, quantity + OrElse(delta, 0))
  }

  /** The save cannot fail here: the name and sku are unchanged and the
      quantity is clamped at zero (AdjustSaveAccepted). */
  function Adjust(s: Stores, id: Id, delta: Option<int>): Outcome
  {
    if id !in s.products then Outcome(s, NotFound)
    else
      var cur := s.products[id];
      var p := PreSave(cur.(quantity := AdjustedQuantity(cur.quantity, delta)));
      Outcome(s.(products := s.products[id := p]), Adjusted(p))
  }

  // ---------------------------------------------------------------------
  // Whole delete with archive (src/routes/products.js:213-231)

  /** The snapshot is written under the product's own id, which the spread
      of `toObject()` carries into the archive document. */
  function Delete(s: Stores, id: Id): Outcome
  {
    if id !in s.products then Outcome(s, NotFound)
    else
      Outcome(s.(products := s.products - {id}, archive := s.archive[id := Snapshot(s.products[id])]), Deleted)
  }

  // ---------------------------------------------------------------------
  // Multi-delete (src/routes/products.js:326-359)

  /** The ids of `ids` that name a live product: what `find` with `$in`
      returns. */
  function Matched(products: map<Id, Product>, ids: seq<Id>): set<Id>
  {
    set id | id in ids && id in products
  }

  function Snapshots(products: map<Id, Product>, ids: set<Id>): map<Id, DeletedProduct>
  {
    map id | id in ids && id in products :: Snapshot(products[id])
  }

  /** `ids` is `None` when the body has no `ids` or it is not an array. */
  function MultiDelete(s: Stores, ids: Option<seq<Id>>): Outcome
  {
    if ids.None? || |ids.value| == 0 then Outcome(s, BadRequest)
    else
      var found := Matched(s.products, ids.value);
      if |found| == 0 then Outcome(s, NotFound)
      else
        Outcome(s.(products := s.products - found, archive := s.archive + Snapshots(s.products, found)),
                MultiDeleted(|found|, |found|))
  }

  // ---------------------------------------------------------------------
  // Voice delete (src/routes/products.js:387-453)

  predicate IsPrefix(p: string, s: string)
  {
    |p| <= |s| && s[..|p|] == p
  }

  predicate Contains(s: string, p: string)
    decreases |s|
  {
    IsPrefix(p, s) || (s != [] && Contains(s[1..], p))
  }

  /** `{ $regex: new RegExp(pattern, "i") }` on the name: a case-insensitive
      substring match. */
  predicate NameMatches(name: string, pattern: string)
  {
    Contains(Lower(name), Lower(pattern))
  }

  /** The voice delete's query: the owner's products whose name matches. */
  function VoiceMatch(owner: UserId, pattern: string): Product -> bool
  {
    (p: Product) => p.user == owner && NameMatches(p.name, pattern)
  }

  /** The progress of the voice delete's loop. */
  datatype Batch = Batch(stores: Stores, updated: seq<ItemUpdate>, errors: seq<ItemError>)

  /** One pass of the loop body, for the intent `it`: the lookup, then
      what is done with the product it finds. */
  function VoiceStep(b: Batch, owner: UserId, it: VoiceParser.Intent): Batch
  {
    VoiceApply(b, it, FirstMatching(b.stores.products, 0, b.stores.nextId, VoiceMatch(owner, it.name)))
  }

  /** The rest of the loop body, given the product `findOne` returned. */
  function VoiceApply(b: Batch, it: VoiceParser.Intent, found: Option<Id>): Batch
  {
    var s := b.stores;
    if found.None? || found.value !in s.products then b.(errors := b.errors + [ItemNotFound(it.name)])
    else if s.products[found.value].quantity < it.qty then
      var p := s.products[found.value];
      b.(errors := b.errors + [NotEnoughStock(p.name, p.quantity)])
    else
      var (s1, entry) := Take(s, found.value, it.qty);
      Batch(s1, b.updated + [entry], b.errors)
  }

  /** Taking `qty` units of the product `id`: the slice is archived under a
      fresh id, then the product is saved with the rest, as OutOfStock when
      nothing is left. The save cannot fail: the name and sku are unchanged
      and the quantity stays at or above zero (VoiceStepSaveAccepted). */
  function Take(s: Stores, id: Id, qty: int): (Stores, ItemUpdate)
    requires id in s.products
  {
    var p := s.products[id];
    var left := p.quantity - qty;
    var q := if left <= 0 then p.(quantity := 0, status := OutOfStock)
             else p.(quantity := left, status := Active);
    var entry := if left <= 0 then NowOutOfStock(p.name) else Removed(qty, p.name, left);
    (Stores(s.products[id := PreSave(q)], s.archive[s.nextId := Slice(p, qty)], s.nextId + 1), entry)
  }

  /** The loop over `items`, started from `b`. */
  function VoiceLoop(b: Batch, owner: UserId, items: seq<VoiceParser.Intent>): Batch
  {
    if items == [] then b
    else VoiceStep(VoiceLoop(b, owner, items[..|items| - 1]), owner, items[|items| - 1])
  }

  /** `content` is the language model's reply to the command. */
  function VoiceDelete(s: Stores, owner: UserId, command: string, content: VoiceParser.ProviderContent): Outcome
  {
    if command == [] then Outcome(s, BadRequest)
    else
      var items := VoiceParser.ParseDeleteCommand(content);
      if |items| == 0 then Outcome(s, NoValidItems)
      else
        var b := VoiceLoop(Batch(s, [], []), owner, items);
        Outcome(b.stores, VoiceReport(b.updated, b.errors))
  }

  // ---------------------------------------------------------------------
  // Restore (src/routes/products.js:505-542)

  /** The restore handler's query: the same user and exactly the same name. */
  function RestoreMatch(d: DeletedProduct): Product -> bool
  {
    (p: Product) => p.user == d.user && p.name == d.name
  }

  /** Restore does not assign `status` in either branch. */
  function Restore(s: Stores, id: Id): Outcome
  {
    if id !in s.archive then Outcome(s, NotFound)
    else
      match FirstMatching(s.products, 0, s.nextId, RestoreMatch(s.archive[id]))
      case Some(k) => RestoreInto(s, id, k)
      case None => Revive(s, id)
  }

  /** The archive record `id` merged into the live product `k`. */
  function RestoreInto(s: Stores, id: Id, k: Id): Outcome
    requires id in s.archive && k in s.products
  {
    var merged := s.products[k].(quantity := s.products[k].quantity + s.archive[id].quantity);
    if Acceptable(s.products, k, merged) then
      var p := PreSave(merged);
      Outcome(s.(products := s.products[k := p], archive := s.archive - {id}), Restored(k, p))
    else Outcome(s, ServerError)
  }

  /** The archive record `id` re-created as a new product. */
  function Revive(s: Stores, id: Id): Outcome
    requires id in s.archive
  {
    var doc := NewDocument(ReviveFields(s.archive[id]));
    if Acceptable(s.products, s.nextId, doc) then
      var p := PreSave(doc);
      Outcome(Stores(s.products[s.nextId := p], s.archive - {id}, s.nextId + 1), Restored(s.nextId, p))
    else Outcome(s, ServerError)
  }

  // ---------------------------------------------------------------------
  // Permanent delete (src/routes/products.js:546-564)

  function PermanentDelete(s: Stores, id: Id): Outcome
  {
    if id !in s.archive then Outcome(s, NotFound)
    else Outcome(s.(archive := s.archive - {id}), PermanentlyDeleted(id))
  }
}
