/** The Product schema of src/models/Product.js (field defaults, the
    `trim` setters, the `required` and `min` validators, the pre-save hook)
    and the field list of the DeletedProduct archive schema. */
module Models {
  import opened Wrappers
  import opened Text

  /** Document ids and user ids (Mongo ObjectIds) as plain numbers. */
  type Id = nat
  type UserId = nat

  /** The stock status the route handlers assign. `status` is NOT a field of
      the Product schema (only `isActive` is), so Mongoose's strict mode
      drops it on save; the model keeps it as the handlers intend. `Unset`
      is a document no handler has assigned a status to. */
  datatype Status = Unset | Active | OutOfStock

  /** A Product document. `normalizedName` is the empty string while it is
      undefined, before the pre-save hook has run. */
  datatype Product = Product(
    name: string,
    normalizedName: string,
    sku: Option<string>,
    category: Option<string>,
    unit: string,
    price: int,
    quantity: int,
    minStockLevel: int,
    isActive: bool,
    createdBy: UserId,
    user: UserId,
    status: Status)

  /** A DeletedProduct (archive) document: the fields its schema declares.
      `productId`, which the voice-delete handler passes, is not among them
      and is dropped; so are a product's `normalizedName` and `isActive`. */
  datatype DeletedProduct = DeletedProduct(
    name: string,
    sku: Option<string>,
    category: Option<string>,
    unit: string,
    price: int,
    quantity: int,
    minStockLevel: int,
    createdBy: UserId,
    user: UserId)

  const DefaultUnit: string := "pcs"
  const DefaultPrice: int := 0
  const DefaultQuantity: int := 0
  const DefaultMinStockLevel: int := 5
  const DefaultIsActive: bool := true

  /** The values a handler passes to `Product.create`; `None` is a field
      it leaves undefined. */
  datatype ProductFields = ProductFields(
    name: string,
    normalizedName: Option<string>,
    sku: Option<string>,
    category: Option<string>,
    unit: Option<string>,
    price: Option<int>,
    quantity: Option<int>,
    minStockLevel: Option<int>,
    createdBy: UserId,
    user: UserId)

  function OrElse<T>(o: Option<T>, default: T): T
  {
    if o.Some? then o.value else default
  }

  function TrimOption(o: Option<string>): Option<string>
  {
    if o.Some? then Some(Trim(o.value)) else None
  }

  /** A new document built from `f`: the `trim` setters of `name`, `sku` and
      `category` apply, and every undefined field takes its schema default. */
  function NewDocument(f: ProductFields): Product
  {
    Product(
      name := Trim(f.name),
      normalizedName := OrElse(f.normalizedName, ""),
      sku := TrimOption(f.sku),
      category := TrimOption(f.category),
      unit := OrElse(f.unit, DefaultUnit),
      price := OrElse(f.price, DefaultPrice),
      quantity := OrElse(f.quantity, DefaultQuantity),
      minStockLevel := OrElse(f.minStockLevel, DefaultMinStockLevel),
      isActive := DefaultIsActive,
      createdBy := f.createdBy,
      user := f.user,
      status := Unset)
  }

  /** The schema's defaults, field by field: an undefined unit becomes
      `pcs`, price 0, quantity 0 and minStockLevel 5, and a given one is
      kept; isActive starts true; the name, sku and category are stored
      trimmed, and the owner fields are the ones given. */
  lemma NewDocumentDefaults(f: ProductFields)
    ensures var p := NewDocument(f);
            && (f.unit.None? ==> p.unit == "pcs") && (f.unit.Some? ==> p.unit == f.unit.value)
            && (f.price.None? ==> p.price == 0) && (f.price.Some? ==> p.price == f.price.value)
            && (f.quantity.None? ==> p.quantity == 0) && (f.quantity.Some? ==> p.quantity == f.quantity.value)
            && (f.minStockLevel.None? ==> p.minStockLevel == 5)
            && (f.minStockLevel.Some? ==> p.minStockLevel == f.minStockLevel.value)
            && p.isActive
            && p.name == Trim(f.name)
            && (f.sku.None? ==> p.sku.None?) && (f.sku.Some? ==> p.sku == Some(Trim(f.sku.value)))
            && (f.category.None? ==> p.category.None?)
            && (f.category.Some? ==> p.category == Some(Trim(f.category.value)))
            && p.createdBy == f.createdBy && p.user == f.user
  {
  }

  /** The `required` validator on `name` (an empty string fails it) and the
      `min: 0` validator on `quantity`. `createdBy` and `user` are always
      present here, as ids are never undefined in this model. */
  predicate Conforms(p: Product)
  {
    p.name != [] && p.quantity >= 0
  }

  /** The pre-save hook: when the name is non-empty, `normalizedName`
      becomes its lower-case form; nothing else changes. */
  function PreSave(p: Product): (r: Product)
    ensures r.name != [] ==> r.normalizedName == Lower(r.name)
    ensures r.name == [] ==> r == p
    ensures r == p.(normalizedName := r.normalizedName)
  {
    if p.name != [] then p.(normalizedName := Lower(p.name)) else p
  }

  /** A saved document keeps the lower-case-name invariant, whatever
      `normalizedName` it was given, and saving it again changes nothing. */
  lemma PreSaveNormalizes(p: Product)
    requires Conforms(p)
    ensures PreSave(p).normalizedName == Lower(p.name) && IsLower(PreSave(p).normalizedName)
    ensures PreSave(PreSave(p)) == PreSave(p)
  {
    LowerProperties(p.name);
  }

  /** The archive record the whole-record delete writes:
      `{...product.toObject()}` restricted to the archive schema's fields. */
  function Snapshot(p: Product): DeletedProduct
  {
    DeletedProduct(p.name, p.sku, p.category, p.unit, p.price, p.quantity,
                   p.minStockLevel, p.createdBy, p.user)
  }

  /** The archive record the voice delete writes for a slice of `qty`
      units: the product's fields without its `sku`. */
  function Slice(p: Product, qty: int): DeletedProduct
  {
    DeletedProduct(p.name, None, p.category, p.unit, p.price, qty,
                   p.minStockLevel, p.createdBy, p.user)
  }

  /** The fields the restore handler passes when it re-creates a product. */
  function ReviveFields(d: DeletedProduct): ProductFields
  {
    ProductFields(d.name, None, d.sku, d.category, Some(d.unit), Some(d.price),
                  Some(d.quantity), Some(d.minStockLevel), d.createdBy, d.user)
  }

  /** Re-creating a product from the snapshot of a stored product gives it
      back with its fields, its quantity and its normalised name; only
      `isActive` returns to its default and `status` to unassigned. */
  lemma ReviveSnapshot(p: Product)
    requires Conforms(p) && p.normalizedName == Lower(p.name)
    requires Trimmed(p.name)
    requires p.sku.Some? ==> Trimmed(p.sku.value)
    requires p.category.Some? ==> Trimmed(p.category.value)
    ensures PreSave(NewDocument(ReviveFields(Snapshot(p)))) == p.(isActive := true, status := Unset)
  {
    TrimmedIff(p.name);
    if p.sku.Some? { TrimmedIff(p.sku.value); }
    if p.category.Some? { TrimmedIff(p.category.value); }
  }
}
