/** The `Service` of internal/services: the database behind its connection
    pool, which each write call updates in place. Each method runs the
    statements of its call (ProductStore, ProductEdit, Invoices) on the
    current tables and stores the tables the call leaves behind. */
module ServiceModel {
  import opened Common
  import opened Products
  import ProductStore
  import ProductEdit
  import Invoices

  class Service {
    /** Products, images and parameter values, with their id source. */
    var catalog: State
    /** The entities table (only read by the calls modelled here). */
    var entities: map<Id, Entity>
    /** Invoices and invoice items, with their id source. */
    var ledger: Invoices.InvoiceDb

    ghost predicate Valid()
      reads this
    {
      Inv(catalog) && Invoices.Inv(ledger)
    }

    /** An empty database. */
    constructor ()
      ensures Valid()
      ensures catalog == State(map[], map[], map[], 1) && entities == map[]
      ensures ledger == Invoices.InvoiceDb(map[], map[], 1)
    {
      catalog := State(map[], map[], map[], 1);
      entities := map[];
      ledger := Invoices.InvoiceDb(map[], map[], 1);
    }

    /** `GenerateProducts`: it succeeds exactly when the scans, the begin,
        every statement of every pair and the commit succeed; then the
        catalog is the run of every (generator, base) pair in loop order; on
        error its tables are as before. */
    method GenerateProducts(fails: ProductStore.Stmt -> bool, clash: (map<Id, Image>, Image) -> bool)
      returns (r: Result<seq<Product>, ProductStore.Failure>, ghost bases: seq<Base>, ghost gens: seq<Generator>)
      requires Valid()
      modifies this`catalog
      ensures Valid()
      ensures !fails(ProductStore.QueryBases) && !fails(ProductStore.QueryGenerators) ==>
                IsBaseScan(bases, old(catalog).products) && IsGeneratorScan(gens, entities)
      ensures r.Ok? <==>
                && !fails(ProductStore.QueryBases) && !fails(ProductStore.QueryGenerators) && !fails(ProductStore.Begin)
                && ProductStore.PairsSucceed(fails, |gens|, |bases|) && !fails(ProductStore.Commit)
      ensures r.Ok? ==> r.value == [] && catalog == Run(old(catalog), Pairs(gens, bases), clash)
      ensures r.Err? ==> r.error.Fault? && fails(r.error.at) && ProductStore.SameTables(old(catalog), catalog)
    {
      var db;
      r, db, bases, gens := ProductStore.GenerateProducts(catalog, entities, fails, clash);
      catalog := db;
    }

    /** `DeleteGeneratedProducts`: it succeeds exactly when its statement
        does; then every generated row is gone and every other row kept. */
    method DeleteGeneratedProducts(fails: ProductStore.Stmt -> bool) returns (r: Result<seq<Product>, ProductStore.Failure>)
      requires Valid()
      modifies this`catalog
      ensures Valid()
      ensures r.Ok? <==> !fails(ProductStore.DeleteGenerated)
      ensures r.Ok? ==> r.value == [] && catalog == old(catalog).(products := Purge(old(catalog).products))
      ensures r.Err? ==> r.error == ProductStore.Fault(ProductStore.DeleteGenerated) && catalog == old(catalog)
    {
      var db;
      r, db := ProductStore.DeleteGeneratedProducts(catalog, fails);
      catalog := db;
    }

    /** `CreateProduct`: it succeeds exactly when the input validates, the
        name is free, no parameter is listed twice and no statement fails;
        then one row under a fresh id that owns exactly the listed images
        and has exactly the listed parameter values; on error the tables as
        before. */
    method CreateProduct(input: ProductInput, validates: bool, fails: ProductStore.Stmt -> bool)
      returns (r: Result<(), ProductStore.Failure>)
      requires Valid()
      modifies this`catalog
      ensures Valid()
      ensures r.Ok? <==>
                && validates && !fails(ProductStore.Begin) && !fails(ProductStore.InsertProduct)
                && input.name !in old(catalog).products
                && ProductEdit.AttachesSucceed(fails, |input.imageIds|)
                && ProductEdit.InsertsSucceed(fails, |input.params|) && DistinctParams(input.params)
                && !fails(ProductStore.Commit)
      ensures r.Ok? ==> catalog == State(old(catalog).products[input.name := NewProduct(input, old(catalog).nextId)],
                                         Attached(old(catalog).images, input.imageIds, old(catalog).nextId),
                                         old(catalog).params[old(catalog).nextId := UpsertedParams(map[], input.params)],
                                         old(catalog).nextId + 1)
      ensures r.Ok? ==> OwnsExactly(catalog.images, old(catalog).nextId, input.imageIds)
      ensures r.Err? ==> ProductStore.SameTables(old(catalog), catalog)
    {
      var db;
      r, db := ProductEdit.CreateProduct(catalog, input, validates, fails);
      catalog := db;
    }

    /** `EditProduct` as written: it succeeds exactly when the input
        validates, the new name clashes with no other row and no statement
        fails; the update of the product row, once it has gone through,
        survives a failure of the statements after it. */
    method EditProduct(id: Id, input: ProductInput, validates: bool, fails: ProductStore.Stmt -> bool)
      returns (r: Result<(), ProductStore.Failure>)
      requires Valid()
      modifies this`catalog
      ensures Valid()
      ensures r.Ok? <==>
                && validates && !fails(ProductStore.Begin) && !fails(ProductStore.UpdateProduct)
                && UpdateById(old(catalog).products, id, input).Some?
                && !fails(ProductStore.DetachImages) && ProductEdit.AttachesSucceed(fails, |input.imageIds|)
                && ProductEdit.UpsertsSucceed(fails, |input.params|) && !fails(ProductStore.Commit)
      ensures r.Ok? ==> catalog == old(catalog).(
                products := UpdateById(old(catalog).products, id, input).value,
                images := Attached(Detached(old(catalog).images, id), input.imageIds, id),
                params := old(catalog).params[id := UpsertedParams(ValuesOf(old(catalog).params, id), input.params)],
                nextId := Max(old(catalog).nextId, id + 1))
      ensures r.Err? ==> catalog.images == old(catalog).images && catalog.params == old(catalog).params
                         && catalog.nextId == old(catalog).nextId
      ensures validates && !fails(ProductStore.Begin) && !fails(ProductStore.UpdateProduct)
              && UpdateById(old(catalog).products, id, input).Some? ==>
                catalog.products == UpdateById(old(catalog).products, id, input).value
      ensures !(validates && !fails(ProductStore.Begin) && !fails(ProductStore.UpdateProduct)
                && UpdateById(old(catalog).products, id, input).Some?) ==>
                catalog == old(catalog)
    {
      var db;
      r, db := ProductEdit.EditProduct(catalog, id, input, validates, fails);
      catalog := db;
    }

    /** `CreateInvoice`: it succeeds exactly when no statement fails; then a
        header under a fresh id and one item row per submitted item, which
        are exactly the rows of the new invoice; on error the tables as
        before. */
    method CreateInvoice(inv: Invoices.InvoiceInput, createdAt: int, updatedAt: int, fails: Invoices.Stmt -> bool)
      returns (err: Option<Invoices.Stmt>)
      requires Valid()
      modifies this`ledger
      ensures Valid()
      ensures err.None? <==>
                && !fails(Invoices.Begin) && !fails(Invoices.InsertInvoice)
                && Invoices.CreatesSucceed(fails, |inv.items|) && !fails(Invoices.Commit)
      ensures err.None? ==>
                && old(ledger).nextId !in old(ledger).invoices
                && ledger.invoices == old(ledger).invoices[old(ledger).nextId := Invoices.NewInvoice(inv, createdAt, updatedAt)]
                && ledger.items == Invoices.InsertedItems(old(ledger).items, old(ledger).nextId,
                                                          old(ledger).nextId + 1, inv.items)
                && Invoices.ItemsExactly(ledger.items, old(ledger).nextId,
                                         old(ledger).nextId + 1, old(ledger).nextId + 1 + |inv.items|)
      ensures err.Some? ==> fails(err.value) && ledger.invoices == old(ledger).invoices && ledger.items == old(ledger).items
    {
      var db;
      err, db := Invoices.CreateInvoice(ledger, inv, createdAt, updatedAt, fails);
      ledger := db;
    }

    /** `EditInvoice`: it succeeds exactly when no statement fails; then the
        header is updated and the invoice's items match the submitted list;
        on error the tables as before. */
    method EditInvoice(id: Id, inv: Invoices.InvoiceInput, fails: Invoices.Stmt -> bool)
      returns (err: Option<Invoices.Stmt>)
      requires Valid()
      modifies this`ledger
      ensures Valid()
      ensures err.None? <==>
                && !fails(Invoices.Begin) && !fails(Invoices.UpdateInvoice) && Invoices.EditsSucceed(fails, |inv.items|)
                && !fails(Invoices.DeleteItems) && !fails(Invoices.Commit)
      ensures err.None? ==> ledger == Invoices.Edited(old(ledger), id, inv)
      ensures err.Some? ==> fails(err.value) && ledger.invoices == old(ledger).invoices && ledger.items == old(ledger).items
    {
      var db;
      err, db := Invoices.EditInvoice(ledger, id, inv, fails);
      ledger := db;
    }
  }
}
