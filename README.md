# Catalog and invoice writes of the caroption back end, in Dafny

This project models the write paths of the Go service in
`internal/services/products.go`, `internal/services/invoices.go` and
`internal/utils/utils.go`, and proves what they promise.

- **Product generation.** `GenerateProducts` reads the base products
  (`generatable AND NOT generated`) and the generator entities
  (`parent_id IS NOT NULL AND show`). For every pair, generator-major, it
  derives a product row: joined name, description and slug, the summed price
  (`strconv.Atoi`, Go's 64-bit `int`, `strconv.Itoa`), and de-duplicated
  keywords (`uniqueStrings`). Inside one transaction it then upserts the row
  by name and copies the base's images and parameter values onto it.
  `DeleteGeneratedProducts` purges every generated row.
- **Product create and edit.** `CreateProduct` inserts one row, attaches the
  listed images and inserts the parameter values. `EditProduct` updates the
  row, detaches the product's images, attaches the listed ones, and upserts
  the parameter values.
- **Invoices.** `CreateInvoice` inserts a header and one item row per item.
  `EditInvoice` updates the header and makes the invoice's items match the
  submitted list: it gives new ids to `uuid.Nil` items, upserts by id, and
  deletes the items that were not submitted.
- **String helpers.** `ReplacePersianDigits`, and the byte-to-alphabet loop
  of `RandomString`.

The database is a value: a `State` with products keyed by name, images by
id, parameter values by product and parameter, and a counter standing for
`uuid.New` and `gen_random_uuid`. Invoices live in an `InvoiceDb` of the
same kind. Each service call is a method that takes the tables and returns
the tables it leaves. `ServiceModel.Service` holds them as fields and
updates them in place. Database errors are a parameter `fails` that says
which statement of a call fails. A transaction is a snapshot that is put
back on error.

Modules, one per file:

| module | file | contents |
|---|---|---|
| `Common` | common.dfy | ids, nullable text, Option, Result |
| `GoStrconv` | gostrconv.dfy | `strconv.Atoi`, `strconv.Itoa`, 64-bit wrap-around |
| `Products` | products.dfy | rows, the derived row, de-duplication, upsert, copies, a run as a fold over the pairs, and the product edit as functions |
| `ProductStore` | products_store.dfy | `uniqueStrings`, the scan loops, `GenerateProducts` with its nested loops, `DeleteGeneratedProducts` |
| `ProductEdit` | products_edit.dfy | `CreateProduct` and `EditProduct` with their loops |
| `Invoices` | invoices.dfy | `CreateInvoice` and `EditInvoice` with their loops |
| `Utils` | utils.dfy | `RandomString` and `ReplacePersianDigits` |
| `ServiceModel` | service.dfy | the `Service` class over all of the above |

## Model

| member | source | states |
|---|---|---|
| Products.DedupElements | internal/services/products.go:30-40 | the de-duplicated list holds exactly the elements of the input |
| Products.DedupNoDuplicates | internal/services/products.go:30-40 | no element appears twice in the de-duplicated list |
| Products.DedupFirstOccurrenceOrder | internal/services/products.go:30-40 | elements keep the order of their first occurrence in the input |
| ProductStore.UniqueStrings | internal/services/products.go:30-40 | the loop over a `seen` set yields the de-duplicated list, with the same elements as the input and no duplicates |
| ProductStore.LoadBases | internal/services/products.go:47-87 | a failed query is reported; otherwise every product with `generatable AND NOT generated` is listed exactly once, with its row |
| ProductStore.BasesScanStep | internal/services/products.go:77-87 | reading one more row keeps the scanned list exact: only base rows, all of those read so far, no name twice |
| ProductStore.LoadGenerators | internal/services/products.go:92-131 | a failed query is reported; otherwise every entity with a parent and `show` is listed exactly once, with its row |
| ProductStore.GeneratorsScanStep | internal/services/products.go:121-131 | reading one more entity keeps the scanned list exact |
| Products.PairsLayout | internal/services/products.go:166-167 | the loops visit \|G\| * \|B\| pairs, generator-major: pair (i, j) comes at position i * \|B\| + j |
| Products.DeriveColumns | internal/services/products.go:181-196 | the derived row joins descriptions with a space and slugs with `_`; it is generated, not generatable and shown; it takes entity and image from the generator, and info, count, category and brand from the base |
| Products.DerivePriceColumn | internal/services/products.go:170-172 | the derived price is non-NULL and parses back to the 64-bit sum of the two parsed prices |
| Products.DerivedPriceSum | internal/services/products.go:170-172 | when the sum fits in 64 bits the derived price reads back as the plain sum |
| Products.DeriveKeywordsColumn | internal/services/products.go:175-176 | the derived keywords are exactly those of base and generator, each once |
| GoStrconv.AtoiNumeral | internal/services/products.go:170-171 | a sign and digits parse to their value, clamped into int64 as Go's `Atoi` does |
| GoStrconv.AtoiNonNumeral | internal/services/products.go:170-171 | an empty or non-numeric price of up to 20 characters parses to 0 |
| GoStrconv.ScanDigitsOverflow | internal/services/products.go:170-171 | a digit string above the 64-bit range is a range error |
| GoStrconv.AtoiItoa | internal/services/products.go:186 | `Atoi` undoes `Itoa` on every 64-bit integer |
| GoStrconv.ItoaIsNumeral | internal/services/products.go:186 | `Itoa` always yields a sign and digits |
| GoStrconv.Wrap64 | internal/services/products.go:172 | Go's `int` addition: the result lies in int64, equals the sum when that fits, and differs from it by a multiple of 2^64 |
| Products.Upsert | internal/services/products.go:142-161 | the upsert by name adds at most the one name and leaves other rows alone; on a conflict RETURNING gives the existing id and the row is overlaid; otherwise the row goes in under the fresh id |
| Products.UpsertConflict | internal/services/products.go:142-161 | on a name conflict the row keeps id, generated, generatable, position and code, is shown, and takes every other listed column from the derived row |
| Products.CopiedImagesEffect | internal/services/products.go:203-217 | the image copy keeps every existing image unchanged, adds one copy on the new product for each of the base's images that does not clash, under a fresh id, and adds nothing else |
| Products.CopiedParamsEffect | internal/services/products.go:223-243 | the new product gets the base's value for every parameter the base has; every other value is kept; nothing else is added |
| Products.PlaceTables | internal/services/products.go:181-246 | one iteration upserts, copies images onto the returned id, copies parameter values onto it, and moves the id source past every id it used |
| Products.PairStepInv | internal/services/products.go:166-248 | one iteration keeps product ids unique, and keeps every id in use below the id source: product ids, image ids, the product each image is attached to, and the product each parameter value belongs to |
| Products.RunInv | internal/services/products.go:166-248 | the whole run keeps product ids unique and every id in use, or referred to by an image or a parameter value, below the id source |
| Products.PlaceFresh | internal/services/products.go:178-248 | a derived row inserted under a fresh id gets exactly the base's parameter values, and every image attached to it is one of the copies made for it |
| Products.RunAppend | internal/services/products.go:166-248 | running two lists of pairs in turn is running their concatenation |
| Products.RunKeys | internal/services/products.go:142-161 | after a run the product names are the old names plus the derived names |
| Products.DerivedNamesMembers | internal/services/products.go:183 | a name is derived exactly when some pair derives it |
| Products.DerivedNamesBound | internal/services/products.go:166-197 | at most one new row per pair, so at most \|G\| * \|B\| rows are added |
| Products.RunFrame | internal/services/products.go:142-161 | a row whose name no pair derives is left exactly as it was |
| Products.RunIdentity | internal/services/products.go:142-161 | a row that existed keeps id, generated, generatable, position and code; a row the run inserted is generated and not generatable |
| Products.RunLastWins | internal/services/products.go:142-161 | every derived name is present, and its overlaid columns are those of the last pair in loop order that derives it |
| Products.RunOnExisting | internal/services/products.go:142-161 | when every derived name already exists, a run only overlays each such row with its last derived row |
| Products.RunIdempotent | internal/services/products.go:142-161 | running the same pairs again leaves the products as the first run left them |
| Products.OverlayAllSettled | internal/services/products.go:145-157 | overlaying rows that already carry their last derived columns changes nothing |
| Products.RunKeepsImages | internal/services/products.go:203-217 | images present before the run are never changed or removed |
| ProductStore.GenerateProducts | internal/services/products.go:41-258 | on success the result is empty and the tables are the run of every (generator, base) pair in loop order; it succeeds exactly when no query, statement or the commit fails; on any failure the error names a failing statement and the tables are as before |
| ProductStore.GenerateAll | internal/services/products.go:166-248 | the outer loop finishes exactly when no statement of any pair fails, and then the tables are the run of all pairs |
| ProductStore.GenerateRow | internal/services/products.go:167-247 | the inner loop finishes exactly when no statement of the generator's pairs fails, and then the tables are the run of its row of pairs |
| ProductStore.GeneratePair | internal/services/products.go:168-246 | one iteration succeeds exactly when its three statements do, and then leaves the tables of one placement |
| ProductStore.Rollback | internal/services/products.go:140 | the rollback restores the tables the transaction found; ids drawn meanwhile stay used |
| Products.Purge | internal/services/products.go:17-23 | the delete keeps exactly the rows that are not generated, unchanged |
| ProductStore.DeleteGeneratedProducts | internal/services/products.go:16-29 | on success the result is empty and only the generated rows are gone; on failure nothing changes |
| Products.PurgeThenGenerate | internal/services/products.go:16-258 | after a purge and a run, the generated rows are exactly the derived names that no surviving row held |
| Products.UpdateByIdEffect | internal/services/products.go:710-745 | the update fails exactly on a name clash with another row; otherwise the row with the id moves to the new name with the submitted columns, every other row is kept, and ids stay unique |
| ProductEdit.FindById | internal/services/products.go:710 | the scan finds a row with the id, or shows that none has it |
| ProductEdit.UpdateProductRow | internal/services/products.go:724-745 | the update statement agrees with the update by id |
| ProductEdit.UpdateByIdInv | internal/services/products.go:724-745 | the update keeps product ids unique and below the id source |
| Products.ReconcileImages | internal/services/products.go:747-775 | after detaching and attaching, an image belongs to the product exactly when it was listed; the product's other images are detached; all other images, names and urls are unchanged |
| ProductEdit.AttachImages | internal/services/products.go:674-688 | the image loop succeeds exactly when no attach fails, and then leaves the attached images |
| Products.UpsertedParamsValues | internal/services/products.go:777-808 | a listed parameter gets the value of its last entry; unlisted values of the product are kept |
| ProductEdit.UpsertParams | internal/services/products.go:777-808 | the upsert loop succeeds exactly when no upsert fails, and then leaves the upserted values |
| Products.InsertedParamsDistinct | internal/services/products.go:690-705 | for a product with no values yet, the plain inserts succeed exactly when no parameter is listed twice, and then agree with the upserts |
| ProductEdit.InsertParams | internal/services/products.go:690-705 | the insert loop succeeds exactly when no insert fails and no parameter repeats; a repeat is a unique violation |
| ProductEdit.InsertedParamsStuck | internal/services/products.go:690-705 | once an insert is rejected the whole list is |
| ProductEdit.ReconcileProduct | internal/services/products.go:747-808 | the statements after the update succeed exactly when none fails, and then leave the reconciled images and upserted values |
| ProductEdit.EditProduct | internal/services/products.go:709-811 | success exactly when validation, every statement and the commit succeed and the new name is free, with the edited row, reconciled images and upserted values, and the id source moved past `id`; on an invalid input, a failing begin or update, or a name clash, nothing changes; on a later error images, parameter values and the id source are unchanged, but the update stays |
| ProductEdit.EditProductAtomic | internal/services/products.go:709-811 | as `EditProduct`, except that any error leaves the database exactly as it was |
| ProductEdit.EditFailureWitness | internal/services/products.go:724 | a concrete call whose commit fails reports an error and yet has moved the row to its new name |
| ProductEdit.EditAtomicWitness | internal/services/products.go:724 | the same call of the corrected edit reports an error and leaves the database unchanged |
| ProductEdit.FillProduct | internal/services/products.go:674-705 | attaching and inserting succeed exactly when no statement fails and no parameter repeats, and then leave the attached images and inserted values |
| ProductEdit.CreateInv | internal/services/products.go:649-688 | inserting a row under the id source and attaching the listed images to it keeps the invariant once the source moves past it; the new product owns exactly the listed images, none inherited from an earlier write |
| ProductEdit.FreshParams | internal/services/products.go:649-705 | the id source has no parameter values, so the inserts for the new product succeed exactly when no parameter is listed twice, and then give the upserted values |
| ProductEdit.EditInv | internal/services/products.go:709-811 | a committed edit keeps the invariant: every image link and parameter value it writes is under `id`, which the id source has moved past |
| Products.AttachedOwners | internal/services/products.go:674-688 | the listed images that exist are attached to the product; every other image is unchanged |
| ProductEdit.CreateProduct | internal/services/products.go:634-708 | success exactly when validation, every statement and the commit succeed, the name is free and no parameter is listed twice; then one new row under a fresh id that owns exactly the listed images and has exactly the listed parameter values; on any error the tables are as before |
| Invoices.InsertedItemsEffect | internal/services/invoices.go:36-56 | the inserts add exactly one row per item under fresh ids, each carrying the new invoice id and the item's columns as given; existing rows are kept |
| Invoices.InsertItems | internal/services/invoices.go:36-56 | the item loop succeeds exactly when no insert fails, and then leaves the inserted items |
| Invoices.CreateInvoice | internal/services/invoices.go:11-62 | success exactly when begin, every insert and the commit succeed; then one header under an id no invoice has, with the submitted amounts and the two clock readings, and one item row per submitted item, which are exactly the rows of the new invoice; on error the tables are as before |
| Invoices.CreatedItems | internal/services/invoices.go:38-58 | the inserted item rows are exactly the rows of the new invoice, and every id they use is below the id source |
| Invoices.UpdatedHeaderEffect | internal/services/invoices.go:162-178 | the header update targets the path id and changes only person, type, total and notes; discount, net total, timestamps and every other invoice are kept |
| Invoices.Settle | internal/services/invoices.go:185-191 | one id per item, none of them `uuid.Nil`, all below the new id source |
| Invoices.SettleEffect | internal/services/invoices.go:185-191 | a submitted id is kept; a `Nil` id becomes a fresh id, unused before and above every earlier settled id |
| Invoices.UpsertItemRow | internal/services/invoices.go:194-212 | the upsert by id overwrites description, price, product, count and total, never invoice id, discount or net total; a new row takes the body's invoice id |
| Invoices.DeleteMissing | internal/services/invoices.go:219-226 | the delete removes exactly the invoice's items whose ids were not submitted |
| Invoices.UpsertedItemsKeys | internal/services/invoices.go:187-217 | the upsert loop adds exactly the submitted ids and rewrites only their rows; a rewritten row keeps its invoice, a new row belongs to the body's invoice id |
| Invoices.ReconcileItems | internal/services/invoices.go:185-226 | afterwards every submitted id has a row, the invoice has no item that was not submitted, and other invoices' unsubmitted items are untouched |
| Invoices.UpsertItems | internal/services/invoices.go:185-217 | the item loop succeeds exactly when no upsert fails, and then leaves the settled ids and upserted items |
| Invoices.SettleStep | internal/services/invoices.go:187-191 | one iteration settles one more id: a `Nil` id takes the id source, which then moves on; a submitted id is kept and the source moves past it |
| Invoices.UpsertedStep | internal/services/invoices.go:193-212 | one iteration upserts one more row onto the items upserted so far |
| Invoices.EditedResult | internal/services/invoices.go:153-233 | the tables the statements of `EditInvoice` leave are `Edited`, and they keep the invariant |
| Invoices.EditKeepsInv | internal/services/invoices.go:153-233 | the edit keeps every id in use, and every invoice id an item refers to, non-Nil and below the id source |
| Invoices.EditInvoice | internal/services/invoices.go:153-233 | success exactly when every statement and the commit succeed; the header named by the path id is updated and the items of the body's invoice are reconciled; on error the tables are as before |
| Utils.CharsetAlphabet | internal/utils/utils.go:17 | the alphabet has 62 distinct characters, all ASCII letters and digits, and holds every one of them |
| Utils.CharsetLayout | internal/utils/utils.go:17 | position k of the alphabet is a lower-case letter, then an upper-case letter, then a digit |
| Utils.Encode | internal/utils/utils.go:26 | every byte maps to an ASCII letter or digit |
| Utils.RandomString | internal/utils/utils.go:19-30 | on a read error the result is empty and the error reported; otherwise exactly `length` characters, the i-th being the alphabet at random byte i mod 62 |
| Utils.ToAscii | internal/utils/utils.go:218-227 | a Persian digit i becomes ASCII digit i; any other rune is unchanged; no Persian digit comes out |
| Utils.Ascii | internal/utils/utils.go:218-227 | the rune count is kept and each rune is mapped by itself |
| Utils.ReplaceAll | internal/utils/utils.go:223 | `strings.ReplaceAll` of one rune by another replaces it at every position and keeps the rest |
| Utils.ReplacePersianDigits | internal/utils/utils.go:218-227 | the loop over the ten digits yields the string with every Persian digit replaced |
| Utils.AsciiHasNoPersianDigit | internal/utils/utils.go:218-227 | no rune in U+06F0 to U+06F9 survives, and the length is kept |
| Utils.AsciiIdempotent | internal/utils/utils.go:218-227 | replacing twice is replacing once |
| ServiceModel.Service.constructor | internal/services/db.go:7-13 | a service over empty tables |
| ServiceModel.Service.GenerateProducts | internal/services/products.go:41-258 | success exactly when the scans, every statement and the commit succeed; then the catalog is the run of all pairs; on error its tables are as before |
| ServiceModel.Service.DeleteGeneratedProducts | internal/services/products.go:16-29 | success exactly when the delete succeeds; then the generated rows are gone; on error nothing changes |
| ServiceModel.Service.CreateProduct | internal/services/products.go:634-708 | success exactly when validation and every statement succeed, the name is free and no parameter is listed twice; then one new row under a fresh id that owns exactly the listed images and has exactly the listed values; on error the tables are as before |
| ServiceModel.Service.EditProduct | internal/services/products.go:709-811 | success exactly when validation and every statement succeed and the name is free; then the edited catalog with the id source past `id`; on an invalid input, a failing begin or update, or a name clash, nothing changes; on a later error images, values and the id source are unchanged, and the update stays |
| ServiceModel.Service.CreateInvoice | internal/services/invoices.go:11-62 | success exactly when every statement succeeds; then a header under an unused id and its items, exactly the rows of the new invoice; on error the invoice tables are as before |
| ServiceModel.Service.EditInvoice | internal/services/invoices.go:153-233 | success exactly when every statement succeeds; then the reconciled invoice; on error the invoice tables are as before |

## Left out

- Database engine: the tables are Dafny maps and SQL statements are functions over them. Connection loss, foreign keys and other database errors are the `fails` parameter, not modelled one by one.
- Concurrency: overlapping calls, locking and isolation levels are not modelled. Each call sees the tables alone.
- Ids: `uuid.New` and `gen_random_uuid` are a counter. Every id handed out is fresh, which stands for the uniqueness of random UUIDs. The counter is not rolled back with a transaction.
- Foreign keys: an edit under an id that names no row (`EditProduct` on a missing product, `EditInvoice` with a body id that names no invoice) succeeds, and its image links, parameter values or item rows are stored under that id. The counter then moves past that id, so that it is never handed out later, as a random UUID would not be.
- Column defaults: the schema is not part of the source. The model assumes that `position` and `code` are NULL on a derived insert, that a created product has `generated` false and a NULL `entity_id`, and that an item row inserted by the upsert of `EditInvoice`, which does not write `discount` and `net_total`, has them NULL.
- Products.CopiedImages: the ids of the image copies come from the block `[first, 2 * first)` reserved for the statement. Only source image ids below `first` are scanned, which holds because every id in use is below the id source.
- Products.CopiedImages: a conflict on a unique constraint other than the id is the parameter `clash`, judged against the table as the statement found it. A clash between two rows of the same statement is not modelled.
- Parameter values: the surrogate `id` column of `product_parameter_values` is not modelled. A row is its (product, parameter) pair and its value columns.
- Product names: rows are keyed by name. A NULL name is not modelled.
- Validation: `validate.Struct` is the boolean `validates`; its tags are not part of this model.
- Scan errors: `rows.Scan` failures and the unchecked `rows.Err()` after the scan loops are not modelled. A failing query is the only load error.
- Time: the two `time.Now()` calls in `CreateInvoice` are the parameters `createdAt` and `updatedAt`, two readings of the clock that need not be equal.
- Random bytes: `rand.Read` in `RandomString` is the parameter `random` with the flag `readFails`.
- Utils.RandomString: the length is a `nat`. Go's `make` panics on a negative length, and that case is not modelled.
- Products.RunIdempotent: stated only for running the same pair list again. A second `GenerateProducts` call scans again in an order SQL does not fix, and a derived name equal to a base's name changes the bases of the next run, so the call itself is not proved idempotent.
- Strings: runes, not UTF-8 bytes. `ReplacePersianDigits` works rune by rune, which is what `strings.ReplaceAll` does on valid UTF-8.
- GoStrconv.AtoiNonNumeral: stated for inputs of at most 20 characters. A longer non-numeric string can reach Go's range error first and parse to the clamped bound, which `Atoi` models.
- Invoices: amounts are modelled as nullable integers and text as nullable text, following the columns written at internal/services/invoices.go:18-52 and 162-212.
- Invoices.Settle: the counter can give a `Nil` item the id that a later item of the same list submits explicitly; the two then upsert one row. `uuid.New` would give the `Nil` item an id of its own. Only ids submitted before a `Nil` item are passed over.
- Invoices.EditInvoice: an item upsert with a submitted id that belongs to another invoice rewrites that item's columns without moving it. This is what the SQL does and the model keeps it.
- Invoice stubs: `AddInvoiceItem`, `RemoveInvoiceItem` and `ListInvoiceItems` do nothing and are not modelled.
- Read-only queries (`ListProducts`, `GetProduct`, searches) and single-statement CRUD in the other service files are not part of this model.
- Parameter table: a product with no values may be absent from the table or map to an empty map. `ValuesOf` reads both alike, so the contracts speak through it.

## Findings

| source | as written | input that shows it | evidently intended | confidence | as-written member | corrected member |
|---|---|---|---|---|---|---|
| internal/services/products.go:724 | `EditProduct` runs the products UPDATE with `s.db.Exec`, outside the transaction it opened at 718 | an edit that renames product "a" to "b" and whose commit fails: the call returns an error, but the row is already renamed | `tx.Exec`, so that the deferred rollback undoes the update with the rest | not executed | ProductEdit.EditFailureWitness | ProductEdit.EditProductAtomic |
