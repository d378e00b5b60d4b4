# Inventory product lifecycle, in Dafny

A model of the core of an inventory server, and proofs about it.

In the server, every user keeps products. A product has a name, an optional
sku, a quantity, a unit, a price and a low-stock threshold. Removed stock
goes into an archive of `DeletedProduct` records, from which it can be
restored or deleted for good. The model covers:

- the seven lifecycle handlers of `src/routes/products.js`: create, adjust,
  whole delete with archive, multi-delete, the voice-driven partial delete,
  restore with merge, and permanent delete;
- the rule-based voice-command parser `parseVoiceCommand`, and the
  degrade-to-empty contract of `parseDeleteCommand`
  (`src/utils/voiceParser.js`);
- the Product schema's defaults, `trim` setters, validators and pre-save
  hook, and the sparse unique index on `sku` it declares at line 34
  (`src/models/Product.js`);
- the fields of the archive schema (`src/models/DeletedProduct.js`).

Layout, one module per file:

| file | module | what it holds |
|---|---|---|
| `wrappers.dfy` | `Wrappers` | `Option` |
| `text.dfy` | `Text` | JavaScript whitespace, ASCII `toLowerCase`, `trim`, and the split of a whitespace-collapsed text into tokens |
| `product.dfy` | `Models` | the Product and DeletedProduct documents, schema defaults, validators, the pre-save hook, the archive snapshots |
| `stores.dfy` | `Stores` | the two collections with the id allocator; the store invariant; total stock; `findOne` |
| `voice_parser.dfy` | `VoiceParser` | `parseVoiceCommand` as a specification function and as a method with the source's number-word loop; `parseDeleteCommand` given the provider's reply |
| `lifecycle.dfy` | `Lifecycle` | one specification function per handler: stores before, to stores after plus the reply |
| `lifecycle_lemmas.dfy` | `LifecycleLemmas` | what the handlers promise, proved about those functions |
| `routes.dfy` | `ProductRoutes` | class `Inventory`: the two collections as fields, one method per handler, each proved to do exactly what its `Lifecycle` function says and to keep the invariant |

The two stores are a value `Stores(products, archive, nextId)`:

- `products` and `archive` are maps from document id to document.
- `nextId` stands in for Mongo's fresh ObjectIds: ids are handed out in
  increasing order.
- `findOne` returns the match with the smallest id, which is the earliest
  created match.

The store invariant `Stores.Valid` says:

- every id was allocated;
- an id names a live product or an archive record, never both;
- every live product is stored in valid form: it has a name, a quantity of
  at least 0, trimmed text fields, and `normalizedName` equal to the
  lower-cased name;
- no two live products share a present sku.

`TotalStock`, the units in stock plus the units archived, is what the delete,
voice-delete and restore paths move between the two collections.

Where the repository's own description of the design and its code disagree,
the model follows the code:

- The voice delete finds the product with a case-insensitive SUBSTRING match
  on its name, `new RegExp(name, "i")`, not an exact match.
- Two handlers are registered for `POST /:id/adjust`. Express runs the first
  one (lines 200-209), which does not touch `status`. The second one (lines
  365-383) sets `status` but is never reached.
- Restore does not recompute `status`.
- No handler except the voice delete scopes its lookup to the caller.
  Adjust, delete, multi-delete, restore and permanent delete act on any
  user's document.
- `status` is not a field of the Product schema, so Mongoose's strict mode
  would drop it on save. The model keeps it as the handlers intend: `Unset`,
  `Active` or `OutOfStock`.
- A whole delete spreads `product.toObject()` into the archive document.
  That carries the product's own id, so the record is stored under the
  product's id. The voice delete's `productId` is not a field of the archive
  schema, so that record gets a fresh id and has no sku.
- The parser's fallback name `raw.trim()` is empty for an all-whitespace
  command. The model proves that the name is empty exactly then
  (`VoiceParser.NameEmptyIff`), and never otherwise.

## Model

| member | source | states |
|---|---|---|
| `Models.NewDocumentDefaults` | src/models/Product.js:5-13 | field by field, an undefined unit, price, quantity or minStockLevel takes `pcs`, 0, 0 or 5 and a given one is kept; isActive starts true; the name, sku and category are stored trimmed; the owners are the ones given |
| `Models.PreSave` | src/models/Product.js:28-31 | a non-empty name sets `normalizedName` to its lower-case form; an empty name leaves the document as it is; no other field changes |
| `Models.PreSaveNormalizes` | src/models/Product.js:28-31 | for a valid document, the saved `normalizedName` is the lower-cased name and is lower case, and saving again changes nothing |
| `Models.ReviveSnapshot` | src/routes/products.js:522-532 | re-creating a product from the archive snapshot of a stored product gives back every field; only `isActive` returns to its default and `status` to unassigned |
| `Stores.SaveKeepsValid` | src/models/Product.js:5-34 | a save that passes the `required` and `min` validators and the sparse unique sku index keeps the store invariant |
| `Stores.FirstMatching` | src/routes/products.js:403-406 | `findOne` returns a match in the id range, and no smaller id matches; `None` means no product in the range matches |
| `Text.LowerProperties` | src/models/Product.js:29 | `toLowerCase` keeps the length, gives a lower-case string, is idempotent, works character by character, and moves no character into or out of the whitespace class |
| `Text.TrimStartProperties` | src/models/Product.js:5 | the leading cut of `trim` removes a whitespace prefix and leaves a string that starts with a non-space |
| `Text.TrimEndProperties` | src/models/Product.js:5 | the trailing cut of `trim` removes a whitespace suffix and leaves a string that ends with a non-space |
| `Text.TrimProperties` | src/models/Product.js:5-8 | `trim` returns a slice of its input with only whitespace cut on both sides; the result starts and ends with a non-space; it is empty exactly when the input is all whitespace |
| `Text.TrimmedIff` | src/models/Product.js:5-8 | `trim` leaves a string unchanged exactly when it has no whitespace at either end, and always returns such a string |
| `Text.TrimIdempotent` | src/models/Product.js:5-8 | trimming twice is trimming once |
| `Text.WordsEmptyIff` | src/utils/voiceParser.js:15 | a collapsed text has no tokens exactly when it is all whitespace |
| `Text.JoinEmptyIff` | src/utils/voiceParser.js:36-37 | tokens joined by single spaces are empty exactly when there are no tokens |
| `Text.WordsOfJoin` | src/utils/voiceParser.js:32-37 | splitting the space-joined tokens gives back exactly those tokens |
| `VoiceParser.DecimalString` | src/utils/voiceParser.js:19 | `String(n)` is a non-empty run of digits |
| `VoiceParser.DigitsValueOfDecimalString` | src/utils/voiceParser.js:19-24 | reading back the digits `String(n)` writes gives `n` |
| `VoiceParser.DigitRunLength` | src/utils/voiceParser.js:23 | measures the longest prefix of digits |
| `VoiceParser.LookupFindsFirst` | src/utils/voiceParser.js:3-9 | the table lookup finds the first entry with the token's spelling, and finds none exactly when no entry has it |
| `VoiceParser.SubstituteStep` | src/utils/voiceParser.js:18-20 | each replacement step rewrites a token exactly when the text so far spells that entry's word; earlier digits are never rewritten |
| `VoiceParser.ReplaceNumberWords` | src/utils/voiceParser.js:18-20 | the number-word loop, one global whole-word replace per table entry in table order, turns every token into its table value's digits, or leaves it as it is |
| `VoiceParser.Without` | src/utils/voiceParser.js:32-35 | a strip keeps no more tokens than it had, every kept token is one it does not drop, and every token it does not drop is kept |
| `VoiceParser.WithoutAppend` | src/utils/voiceParser.js:32-35 | stripping a concatenation is the concatenation of the strips, so the kept tokens stay in the order of the text |
| `VoiceParser.WithoutUnits` | src/utils/voiceParser.js:32-35 | nothing is left of an empty text, and a single token is kept exactly when it is not dropped |
| `VoiceParser.ParseVoiceCommand` | src/utils/voiceParser.js:13-47 | the parser as the source runs it equals the specification `Parse`; it returns null exactly for the empty command |
| `VoiceParser.TokensAreWords` | src/utils/voiceParser.js:15-20 | after normalisation and number-word replacement, every token is non-empty and free of whitespace |
| `VoiceParser.DozenIsReplaced` | src/utils/voiceParser.js:26-29 | no `dozen` token survives the number-word loop |
| `VoiceParser.NumberWordBecomesItsValue` | src/utils/voiceParser.js:18-24 | a number word's token becomes a digit run that denotes the word's value |
| `VoiceParser.LookupStable` | src/utils/voiceParser.js:3-9 | once an earlier entry matches, later entries do not change what the lookup finds |
| `VoiceParser.EntryValue` | src/utils/voiceParser.js:3-9 | an entry whose spelling comes first in the table gives its own value |
| `VoiceParser.DozenAndDoValues` | src/utils/voiceParser.js:6-8 | `dozen` is worth 12 and the Urdu `do` is worth 2 |
| `VoiceParser.FirstNumberIsFirst` | src/utils/voiceParser.js:23-24 | the quantity comes from the first token that starts with a digit; there is none exactly when no token does |
| `VoiceParser.QuantityRule` | src/utils/voiceParser.js:22-29 | the quantity is the first number in the text; with none, it is 12 when `dz` is a token and 1 otherwise |
| `VoiceParser.NumberWordQuantity` | src/utils/voiceParser.js:17-24 | a number word before any token that starts with a digit sets the quantity to the word's value |
| `VoiceParser.UnitIsFirstUnitWord` | src/utils/voiceParser.js:42-44 | the unit is always one of the unit words: the first one in the text, or `pcs` when there is none |
| `VoiceParser.NameEmptyIff` | src/utils/voiceParser.js:31-40 | the parsed name is empty exactly when the command is all whitespace |
| `VoiceParser.NameIsStrippedText` | src/utils/voiceParser.js:31-37 | without the fallback, the name is the space-joined tokens that remain after stripping helper words, numbers and unit words; each of them is a token of the text |
| `VoiceParser.ParseDeleteCommand` | src/utils/voiceParser.js:158-165 | a reply that is not JSON gives the empty list; a JSON reply gives its list |
| `LifecycleLemmas.AllocateKeepsValid` | src/routes/products.js:167 | handing out the next id keeps the invariant, the id is unused, and it holds no stock |
| `LifecycleLemmas.InsertFreshStock` | src/routes/products.js:167-178 | a product saved under a fresh id brings exactly its quantity into stock |
| `LifecycleLemmas.RemoveKeepsValid` | src/routes/products.js:225 | removing a live product or an archive record keeps the invariant |
| `LifecycleLemmas.NewDocumentTrimmed` | src/models/Product.js:5-8 | the name, sku and category of a new document are trimmed |
| `LifecycleLemmas.CreateRejects` | src/routes/products.js:162-164 | create answers 400, and changes nothing, exactly when the name is missing or empty or the quantity is `null` |
| `LifecycleLemmas.CreateInserts` | src/routes/products.js:152-180 | past the checks, create always inserts a NEW product under a fresh id, whatever products share its name. It succeeds exactly when the trimmed name is non-empty, the quantity is not negative and the sku is free. The product has the request's fields, the handler's defaults and the caller as both owners. Otherwise the save fails and nothing changes |
| `LifecycleLemmas.CreateKeepsValid` | src/routes/products.js:150-184 | create keeps the invariant |
| `LifecycleLemmas.CreateStock` | src/routes/products.js:167-180 | create adds the new product's quantity to stock and leaves the archive alone |
| `LifecycleLemmas.AdjustClamps` | src/routes/products.js:200-209 | adjust answers 404 for a missing id. Otherwise the new quantity is the old quantity plus `delta` (0 when absent), clamped at 0, and no other field changes |
| `LifecycleLemmas.AdjustSaveAccepted` | src/routes/products.js:205-206 | the adjusted product always passes validation, so the save cannot fail |
| `LifecycleLemmas.AdjustKeepsValid` | src/routes/products.js:200-209 | adjust keeps the invariant |
| `LifecycleLemmas.AdjustStock` | src/routes/products.js:205-206 | adjust moves stock by exactly the change in quantity, and the archive is untouched |
| `LifecycleLemmas.DeleteArchives` | src/routes/products.js:213-231 | delete answers 404 for a missing id. Otherwise the product leaves the live collection, and one archive record with all its archived fields and its whole quantity is added under its id, which no record held before; nothing else changes |
| `LifecycleLemmas.DeleteKeepsValid` | src/routes/products.js:213-231 | delete keeps the invariant |
| `LifecycleLemmas.DeleteStock` | src/routes/products.js:219-225 | delete moves the product's whole quantity from stock into the archive; the total is conserved |
| `LifecycleLemmas.MultiDeleteRejects` | src/routes/products.js:329-338 | multi-delete answers 400 for missing or empty `ids`, and 404 exactly when no id names a live product; neither changes anything |
| `LifecycleLemmas.DeleteAllForm` | src/routes/products.js:334-348 | whole deletes of the ids one after another remove exactly the matched ids and archive each one's snapshot under its id |
| `LifecycleLemmas.DeleteOneMore` | src/routes/products.js:341-348 | one more deleted id extends the removed set and the archived snapshots by that id |
| `LifecycleLemmas.MultiDeleteIsDeleteAll` | src/routes/products.js:326-359 | a multi-delete that finds products equals the whole delete of each id in turn, and both reported counts are the number of products found |
| `LifecycleLemmas.MultiDeleteArchives` | src/routes/products.js:334-355 | each found product goes from the live collection to the archive whole under its id; every other product and record is untouched |
| `LifecycleLemmas.DeleteAllKeepsValid` | src/routes/products.js:341-348 | the sequence of whole deletes keeps the invariant and conserves the total |
| `LifecycleLemmas.MultiDeleteKeepsValid` | src/routes/products.js:326-359 | multi-delete keeps the invariant and conserves the total |
| `LifecycleLemmas.ReplaceAndArchiveStock` | src/routes/products.js:419-442 | replacing a product and archiving a slice under a fresh id moves stock by exactly those quantities |
| `LifecycleLemmas.VoiceStepFinds` | src/routes/products.js:403-411 | one item finds the caller's first product whose name matches. It finds none exactly when no product of the caller's matches, and then an "X not found" error is appended and nothing else changes |
| `LifecycleLemmas.VoiceStepShort` | src/routes/products.js:413-416 | when the match holds fewer units than asked, a "not enough stock" error with the available quantity is appended and nothing else changes |
| `LifecycleLemmas.VoiceStepTakes` | src/routes/products.js:418-444 | otherwise the asked units are taken and the other fields stay. The slice is archived under a fresh id. The product is out of stock exactly when 0 is left and active exactly when more is left. One `updated` entry is appended |
| `LifecycleLemmas.VoiceApplyTakes` | src/routes/products.js:418-444 | the taking branch, for any product it is given, in closed form |
| `LifecycleLemmas.TakeForm` | src/routes/products.js:419-442 | taking at most the available units leaves a quantity of 0 or more, with the status that matches it |
| `LifecycleLemmas.VoiceStepSaveAccepted` | src/routes/products.js:435-442 | both saves in the loop always pass validation, so neither can fail |
| `LifecycleLemmas.VoiceApplyReports` | src/routes/products.js:408-444 | every pass adds exactly one report entry and keeps the earlier ones |
| `LifecycleLemmas.VoiceApplyKeepsValid` | src/routes/products.js:402-445 | one item keeps the invariant and never removes a product row |
| `LifecycleLemmas.VoiceApplyStock` | src/routes/products.js:419-442 | one item moves the taken units from stock into the archive; the total is conserved |
| `LifecycleLemmas.VoiceStepKeepsValid` | src/routes/products.js:402-445 | one item keeps the invariant and every product row. It conserves the total, and it adds exactly one report entry after the earlier ones |
| `LifecycleLemmas.VoiceLoopAppend` | src/routes/products.js:402 | items are handled strictly in order, and each sees the stores the items before it left |
| `LifecycleLemmas.VoiceLoopKeepsValid` | src/routes/products.js:402-445 | the loop keeps the invariant, removes no product row and conserves the total |
| `LifecycleLemmas.VoiceLoopReports` | src/routes/products.js:399-447 | the loop reports exactly one entry per item, after the entries it started with |
| `LifecycleLemmas.VoiceDeleteReplies` | src/routes/products.js:387-447 | an empty command answers 400. A reply with no items, including one that is not JSON, answers "no valid items"; neither changes anything. Otherwise there is one report entry per item, the invariant and every product row are kept, and the total is conserved |
| `LifecycleLemmas.UnarchiveStock` | src/routes/products.js:536 | taking a record out of the archive takes its quantity out of the archived stock |
| `LifecycleLemmas.RestoreNotFound` | src/routes/products.js:507-508 | restore answers 404, and changes nothing, exactly when no archive record has the id |
| `LifecycleLemmas.RestoreMerges` | src/routes/products.js:511-519 | the first product of the record's user with exactly its name absorbs the record's quantity, and no other field changes. The record leaves the archive. The save fails, and nothing changes, exactly when the merged quantity would be negative |
| `LifecycleLemmas.RestoreRevives` | src/routes/products.js:520-536 | with no such product, the record is re-created under a fresh id, trimmed and with its normalised name, and leaves the archive. The save fails, and nothing changes, exactly when the trimmed name is empty, the quantity is negative or the sku is taken |
| `LifecycleLemmas.RestoreKeepsValid` | src/routes/products.js:505-542 | restore keeps the invariant |
| `LifecycleLemmas.RestoreIntoKeepsValid` | src/routes/products.js:516-519 | the merge branch keeps the invariant |
| `LifecycleLemmas.ReviveKeepsValid` | src/routes/products.js:520-533 | the re-create branch keeps the invariant |
| `LifecycleLemmas.MergeStock` | src/routes/products.js:518-536 | replacing a product and removing a record move stock by exactly those quantities |
| `LifecycleLemmas.ReviveStock` | src/routes/products.js:522-536 | a product saved under a fresh id with one record removed moves stock by exactly those quantities |
| `LifecycleLemmas.RestoreStock` | src/routes/products.js:505-542 | a successful restore moves the record's quantity from the archive back into stock; the total is conserved |
| `LifecycleLemmas.RestoreIntoStock` | src/routes/products.js:516-536 | the same, for the merge branch |
| `LifecycleLemmas.ReviveMovesStock` | src/routes/products.js:520-536 | the same, for the re-create branch |
| `LifecycleLemmas.PermanentDeleteRemoves` | src/routes/products.js:546-564 | permanent delete answers 404 for a missing record. Otherwise the record is gone for good, with its quantity, and a later restore of the id answers 404. The live collection is never touched |
| `LifecycleLemmas.DeleteThenRestore` | src/routes/products.js:213-231 | deleting a product and then restoring its record always succeeds. The archive is as it was, stock is back to where it was, and no unit is lost or made |
| `LifecycleLemmas.RestoreAfterDelete` | src/routes/products.js:505-542 | after a delete, the restore of that record succeeds and leaves the archive as before the delete |
| `LifecycleLemmas.DeleteThenRestoreWhole` | src/routes/products.js:505-542 | when the user has no other product of that name, the deleted product comes back whole under a fresh id, with only `isActive` and `status` at their defaults |
| `LifecycleLemmas.RestoreIntoAfterDelete` | src/routes/products.js:516-519 | after a delete, merging into another product of the same name always succeeds, as neither quantity is negative |
| `LifecycleLemmas.SkuFreeAfterDelete` | src/models/Product.js:34 | a deleted product's sku is free once it is gone |
| `LifecycleLemmas.ReviveAfterDelete` | src/routes/products.js:520-533 | after a delete, re-creating the record always succeeds, as its sku is free again, and gives the product back whole |
| `ProductRoutes.Inventory.FindOne` | src/routes/products.js:403-406 | the loop over ids returns what `findOne` specifies |
| `ProductRoutes.Inventory.Insert` | src/routes/products.js:167-178 | `Product.create`: validation, then the pre-save hook, under a fresh id; a refused save changes nothing |
| `ProductRoutes.Inventory.Save` | src/routes/products.js:206 | `doc.save()`: validation, then the pre-save hook; a refused save changes nothing |
| `ProductRoutes.Inventory.ArchiveNew` | src/routes/products.js:419-430 | `DeletedProduct.create` under a fresh id |
| `ProductRoutes.Inventory.Create` | src/routes/products.js:150-184 | the handler's new state and reply are those of `Lifecycle.Create`, and the invariant is kept |
| `ProductRoutes.Inventory.Adjust` | src/routes/products.js:200-209 | the same, for `Lifecycle.Adjust` |
| `ProductRoutes.Inventory.Delete` | src/routes/products.js:213-231 | the same, for `Lifecycle.Delete` |
| `ProductRoutes.Inventory.FindIn` | src/routes/products.js:334 | `find` with `$in` returns the ids of the list that name a live product |
| `ProductRoutes.Inventory.MultiDelete` | src/routes/products.js:326-359 | the same, for `Lifecycle.MultiDelete` |
| `ProductRoutes.Inventory.VoiceDelete` | src/routes/products.js:387-453 | the same, for `Lifecycle.VoiceDelete`; the loop invariant ties each pass to `Lifecycle.VoiceLoop` |
| `ProductRoutes.Inventory.VoiceItem` | src/routes/products.js:402-445 | one pass of the loop body is `Lifecycle.VoiceStep`, and the invariant is kept |
| `ProductRoutes.Inventory.Take` | src/routes/products.js:418-444 | the archive write and the save of the taking branch are `Lifecycle.Take` |
| `ProductRoutes.Inventory.Restore` | src/routes/products.js:505-542 | the same, for `Lifecycle.Restore` |
| `ProductRoutes.Inventory.RestoreInto` | src/routes/products.js:516-536 | the merge branch is `Lifecycle.RestoreInto` |
| `ProductRoutes.Inventory.Revive` | src/routes/products.js:520-536 | the re-create branch is `Lifecycle.Revive` |
| `ProductRoutes.Inventory.PermanentDelete` | src/routes/products.js:546-564 | the same, for `Lifecycle.PermanentDelete` |

## Left out

- HTTP: status codes, JSON bodies, the auth middleware and `req.user`.
  The caller's id is a parameter, and replies are the `Response` datatype.
- The language-model call in `parseDeleteCommand`: its prompt, client, model
  and network. Its reply is a parameter, either a JSON list of intents or
  text that is not JSON. A JSON reply that is not an array (so `.length` is
  undefined) is not modelled.
- The other routes of `src/routes/products.js`: listing, search, the voice
  add endpoint, aggregates, and the field edit `PUT /:id`. They are not part
  of this model.
- The second `POST /:id/adjust` (lines 365-383): Express never reaches it.
- Timestamps (`createdAt`, `updatedAt`, `deletedAt`): clocks are left out.
- Concurrency: each handler is one atomic step, and there are no racing
  requests.
- `Models.PreSave`, `Text.LowerProperties`: `toLowerCase` is modelled on
  ASCII letters only, with no Unicode case mapping.
- `Lifecycle.NameMatches`: the voice delete's `new RegExp(name, "i")` is a
  case-insensitive substring match. Regular-expression metacharacters in the
  name, and an invalid pattern that would throw and answer 500, are not
  modelled.
- `VoiceParser.QuantityRule`: reads the integer value of the leading digit
  run. The decimal part that `parseFloat` would keep ("2.5") is not
  modelled.
- `VoiceParser.Parse`: `\b` word boundaries are modelled as whole
  whitespace-separated tokens. Punctuation inside a token, which `\b` would
  treat as a boundary, is not modelled.
- Quantities, prices and deltas are integers: `Number(...)` on a string body
  field, and floating point, are not modelled.
- `ProductRoutes.Inventory.VoiceDelete`: the 500 reply when a store call
  throws mid-loop is not modelled. Archive writes have no validator, and the
  saves in the loop are proved never to fail on stores that satisfy
  `Stores.Valid`.
- A malformed id, which Mongoose rejects with a CastError, is not modelled.
  Ids are natural numbers.
- A missing `command` is modelled as the empty string.
- The non-unique `normalizedName` indexes (`src/models/Product.js:6` and 33)
  do not affect behaviour and are not modelled.
- `createdBy` and `user` are always present. Their `required` validators
  therefore never fail in this model.
- `Stores.Valid`: the store invariant (every live product conforms to the
  validators, has a trimmed name and sku and its lower-cased name, and skus
  are unique) is proved for stores written only by the modelled handlers.
  The field edit `PUT /:id` (`src/routes/products.js:188-197`) uses
  `findByIdAndUpdate`, which runs neither the validators nor the pre-save
  hook. It can leave a negative quantity or a stale `normalizedName`, and
  after it a merge restore or an adjust save can fail. The model does not
  capture stores that route has touched.
- `Stores.SkuUnique`: the model assumes the unique sparse index of
  `src/models/Product.js:34` exists. The same schema also declares a plain
  sparse index on `sku` at line 7. Both would be named `sku_1`, so the
  database may refuse to build the unique one, and then duplicate skus
  would be accepted. Which index exists depends on the database's state,
  which is not modelled.
- `Lifecycle.CreateFields`: the create handler's destructuring defaults
  (`src/routes/products.js:152-160`) and the schema defaults apply only to
  `undefined`. A JSON `null` for `unit`, `price`, `minStockLevel`, `sku` or
  `category` is stored as `null`. The model's `Option` has no null case
  for these fields, so a `null` unit is modelled as missing and becomes
  `pcs`. Only `quantity` distinguishes missing from `null`.
