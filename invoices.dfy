/** The invoice writes of internal/services/invoices.go: `CreateInvoice`
    inserts a header and one row per item; `EditInvoice` updates the header
    and makes the invoice's items match the submitted list. Both run in one
    transaction, modelled as a snapshot put back on error. The database is an
    `InvoiceDb` value each call receives and returns; `fails` says which
    statements fail, and the id source `nextId` stands for `uuid.New`. */
module Invoices {
  import opened Common

  /** A header row of `invoices`. */
  datatype Invoice = Invoice(
    personId: Option<Id>,
    kind: Text,
    total: Option<int>,
    discount: Option<int>,
    netTotal: Option<int>,
    notes: Text,
    createdAt: int,
    updatedAt: int)

  /** A row of `invoice_items`. */
  datatype Item = Item(
    invoiceId: Id,
    description: Text,
    price: Option<int>,
    productId: Option<Id>,
    count: Option<int>,
    total: Option<int>,
    discount: Option<int>,
    netTotal: Option<int>)

  /** One submitted item; `id == Nil` asks for a new row. */
  datatype ItemInput = ItemInput(
    id: Id,
    description: Text,
    price: Option<int>,
    productId: Option<Id>,
    count: Option<int>,
    total: Option<int>,
    discount: Option<int>,
    netTotal: Option<int>)

  /** A submitted invoice: the header columns, the body's own id, the items. */
  datatype InvoiceInput = InvoiceInput(
    id: Id,
    personId: Option<Id>,
    kind: Text,
    total: Option<int>,
    discount: Option<int>,
    netTotal: Option<int>,
    notes: Text,
    items: seq<ItemInput>)

  /** The two tables, with the id source. */
  datatype InvoiceDb = InvoiceDb(invoices: map<Id, Invoice>, items: map<Id, Item>, nextId: nat)

  /** Every id in use is below the id source: the row ids, none of which is
      `uuid.Nil`, and the invoice ids the items carry. */
  ghost predicate Inv(db: InvoiceDb) {
    && db.nextId >= 1
    && (forall id :: id in db.invoices ==> Nil < id < db.nextId)
    && (forall id :: id in db.items ==> Nil < id < db.nextId && db.items[id].invoiceId < db.nextId)
  }

  /** The items of invoice `invoiceId` are exactly those with ids in [lo, hi). */
  predicate ItemsExactly(items: map<Id, Item>, invoiceId: Id, lo: nat, hi: nat) {
    forall id :: id in items ==> (items[id].invoiceId == invoiceId <==> lo <= id < hi)
  }

  /** The statements a call issues, each named by its position in the call. */
  datatype Stmt =
    | Begin
    | InsertInvoice
    | InsertItem(index: nat)
    | UpdateInvoice
    | UpsertItem(index: nat)
    | DeleteItems
    | Commit

  // ---------------------------------------------------------------------
  // CreateInvoice
  // ---------------------------------------------------------------------

  /** The header `CreateInvoice` inserts: the submitted columns as given, and
      the two timestamps, each its own reading of the clock. */
  function NewInvoice(inv: InvoiceInput, createdAt: int, updatedAt: int): Invoice {
    Invoice(inv.personId, inv.kind, inv.total, inv.discount, inv.netTotal, inv.notes, createdAt, updatedAt)
  }

  /** The row `CreateInvoice` inserts for an item: its columns as given. */
  function NewItem(invoiceId: Id, it: ItemInput): Item {
    Item(invoiceId, it.description, it.price, it.productId, it.count, it.total, it.discount, it.netTotal)
  }

  /** The item rows after inserting `its` for invoice `invoiceId`, item k
      under id `first + k`. */
  function InsertedItems(items: map<Id, Item>, invoiceId: Id, first: nat, its: seq<ItemInput>)
    : map<Id, Item>
  {
    if its == [] then items
    else InsertedItems(items, invoiceId, first, its[..|its| - 1])[first + |its| - 1 := NewItem(invoiceId, its[|its| - 1])]
  }

  /** The inserted rows are exactly one per item, under fresh ids, each
      carrying the new invoice's id and the item's columns unchanged; the
      rows already there are kept. */
  lemma {:induction false} InsertedItemsEffect(items: map<Id, Item>, invoiceId: Id, first: nat, its: seq<ItemInput>)
    requires forall id :: id in items ==> id < first
    ensures var r := InsertedItems(items, invoiceId, first, its);
      && (forall id :: id in r <==> id in items || first <= id < first + |its|)
      && (forall id :: id in items ==> r[id] == items[id])
      && (forall k :: 0 <= k < |its| ==> r[first + k] == NewItem(invoiceId, its[k]))
  {
    if its != [] {
      var init := its[..|its| - 1];
      InsertedItemsEffect(items, invoiceId, first, init);
      assert forall k :: 0 <= k < |init| ==> its[k] == init[k];
    }
  }

  /** The rows inserted for a new invoice are its only items, since every
      item already there carries an invoice id below the id source. */
  lemma CreatedItems(db: InvoiceDb, inv: InvoiceInput)
    requires Inv(db)
    ensures var first := db.nextId + 1; var r := InsertedItems(db.items, db.nextId, first, inv.items);
      && ItemsExactly(r, db.nextId, first, first + |inv.items|)
      && forall id :: id in r ==> Nil < id < first + |inv.items| && r[id].invoiceId < first + |inv.items|
  {
    var first := db.nextId + 1;
    InsertedItemsEffect(db.items, db.nextId, first, inv.items);
    var r := InsertedItems(db.items, db.nextId, first, inv.items);
    forall id | id in r && first <= id < first + |inv.items|
      ensures r[id].invoiceId == db.nextId
    {
      assert r[first + (id - first)] == NewItem(db.nextId, inv.items[id - first]);
    }
  }

  lemma InsertedItemsSnoc(items: map<Id, Item>, invoiceId: Id, first: nat, its: seq<ItemInput>, k: nat)
    requires k < |its|
    ensures InsertedItems(items, invoiceId, first, its[..k + 1])
            == InsertedItems(items, invoiceId, first, its[..k])[first + k := NewItem(invoiceId, its[k])]
  {
    assert its[..k + 1][..k] == its[..k];
  }

  /** `CreateInvoice`: draw the invoice id, insert the header, then for each
      item draw an id and insert the row; commit. Any failure leaves the
      tables as they were (the ids drawn stay used). `createdAt` and
      `updatedAt` are the two calls of `time.Now()`. */
  method CreateInvoice(db: InvoiceDb, inv: InvoiceInput, createdAt: int, updatedAt: int, fails: Stmt -> bool)
    returns (err: Option<Stmt>, db': InvoiceDb)
    requires Inv(db)
    ensures Inv(db') && db'.nextId >= db.nextId
    ensures err.None? <==>
              !fails(Begin) && !fails(InsertInvoice) && CreatesSucceed(fails, |inv.items|) && !fails(Commit)
    ensures err.Some? ==> fails(err.value) && db'.invoices == db.invoices && db'.items == db.items
    ensures err.None? ==>
              && db.nextId !in db.invoices
              && db'.invoices == db.invoices[db.nextId := NewInvoice(inv, createdAt, updatedAt)]
              && db'.items == InsertedItems(db.items, db.nextId, db.nextId + 1, inv.items)
              && db'.nextId == db.nextId + 1 + |inv.items|
    // the new invoice owns exactly the rows inserted for its items
    ensures err.None? ==> ItemsExactly(db'.items, db.nextId, db.nextId + 1, db.nextId + 1 + |inv.items|)
  {
    if fails(Begin) {
      return Some(Begin), db;
    }
    var invoiceId := db.nextId;
    var next := invoiceId + 1;
    if fails(InsertInvoice) {
      return Some(InsertInvoice), db.(nextId := next);
    }
    var fault, items;
    fault, items, next := InsertItems(db.items, invoiceId, next, inv.items, fails);
    if fault.Some? {
      return fault, db.(nextId := next);
    }
    if fails(Commit) {
      return Some(Commit), db.(nextId := next);
    }
    InsertedItemsEffect(db.items, invoiceId, invoiceId + 1, inv.items);
    CreatedItems(db, inv);
    return None, InvoiceDb(db.invoices[invoiceId := NewInvoice(inv, createdAt, updatedAt)], items, next);
  }

  /** The item loop of `CreateInvoice`: for each item draw an id and insert
      the row, stopping at the first failing statement. */
  method InsertItems(items: map<Id, Item>, invoiceId: Id, first: nat, its: seq<ItemInput>, fails: Stmt -> bool)
    returns (fault: Option<Stmt>, r: map<Id, Item>, next: nat)
    ensures next >= first
    ensures fault.None? <==> CreatesSucceed(fails, |its|)
    ensures fault.Some? ==> fails(fault.value)
    ensures fault.None? ==> r == InsertedItems(items, invoiceId, first, its) && next == first + |its|
  {
    r, next := items, first;
    var k := 0;
    while k < |its|
      invariant 0 <= k <= |its|
      invariant r == InsertedItems(items, invoiceId, first, its[..k])
      invariant next == first + k
      invariant CreatesSucceed(fails, k)
    {
      var id := next;
      next := next + 1;
      if fails(InsertItem(k)) {
        return Some(InsertItem(k)), r, next;
      }
      InsertedItemsSnoc(items, invoiceId, first, its, k);
      CreatesSucceedSnoc(fails, k);
      r := r[id := NewItem(invoiceId, its[k])];
      k := k + 1;
    }
    assert its[..|its|] == its;
    return None, r, next;
  }

  /** No item insert among the first n fails. */
  predicate CreatesSucceed(fails: Stmt -> bool, n: nat) {
    forall k :: 0 <= k < n ==> !fails(InsertItem(k))
  }

  lemma CreatesSucceedSnoc(fails: Stmt -> bool, n: nat)
    requires CreatesSucceed(fails, n) && !fails(InsertItem(n))
    ensures CreatesSucceed(fails, n + 1)
  {
  }

  // ---------------------------------------------------------------------
  // EditInvoice
  // ---------------------------------------------------------------------

  /** `UPDATE invoices SET person_id, type, total, notes WHERE id = $5`: no
      row with the id, no change. */
  function UpdatedHeader(invoices: map<Id, Invoice>, id: Id, inv: InvoiceInput): (r: map<Id, Invoice>)
    ensures r.Keys == invoices.Keys
  {
    if id in invoices then
      invoices[id := invoices[id].(personId := inv.personId, kind := inv.kind, total := inv.total, notes := inv.notes)]
    else invoices
  }

  /** The header update writes person, type, total and notes of the invoice
      named by the path id, keeps its discount, net total and timestamps,
      and leaves every other invoice alone. */
  lemma UpdatedHeaderEffect(invoices: map<Id, Invoice>, id: Id, inv: InvoiceInput)
    requires id in invoices
    ensures var r := UpdatedHeader(invoices, id, inv); var h := invoices[id];
      && r[id].personId == inv.personId && r[id].kind == inv.kind
      && r[id].total == inv.total && r[id].notes == inv.notes
      && r[id].discount == h.discount && r[id].netTotal == h.netTotal
      && r[id].createdAt == h.createdAt && r[id].updatedAt == h.updatedAt
      && forall j :: j in invoices && j != id ==> r[j] == invoices[j]
  {
  }

  /** The ids the loop settles on for the items, with the id source after
      it: a submitted id is kept, a `Nil` id gets a fresh one. The id source
      stays above every id that enters the table, so it never hands out an
      id in use (the freshness `uuid.New` gives). */
  function Settle(its: seq<ItemInput>, next: nat): (r: (seq<Id>, nat))
    requires next >= 1
    ensures |r.0| == |its| && r.1 >= next
    ensures forall k :: 0 <= k < |its| ==> Nil < r.0[k] < r.1
  {
    if its == [] then ([], next)
    else
      var s := Settle(its[..|its| - 1], next);
      var it := its[|its| - 1];
      if it.id == Nil then (s.0 + [s.1], s.1 + 1) else (s.0 + [it.id], Max(s.1, it.id + 1))
  }

  /** A submitted id is kept; a `Nil` id becomes an id at or above the old
      source, above every id settled before it, and so used by no row the
      table held and by no earlier item. */
  lemma {:induction false} SettleEffect(its: seq<ItemInput>, next: nat)
    requires next >= 1
    ensures var ids := Settle(its, next).0;
      && (forall k :: 0 <= k < |its| && its[k].id != Nil ==> ids[k] == its[k].id)
      && (forall k :: 0 <= k < |its| && its[k].id == Nil ==> next <= ids[k])
      && (forall k, l :: 0 <= l < k < |its| && its[k].id == Nil ==> ids[l] < ids[k])
  {
    if its != [] {
      var init := its[..|its| - 1];
      SettleEffect(init, next);
      assert forall k :: 0 <= k < |init| ==> its[k] == init[k];
    }
  }

  /** `INSERT INTO invoice_items ... ON CONFLICT (id) DO UPDATE` of one item
      under id `id` for invoice `invoiceId`: a new row carries the invoice
      id, and the columns the insert does not list (discount, net total)
      take their column default, written `None`; an existing row keeps its
      invoice id, discount and net total and takes the rest. */
  function UpsertItemRow(items: map<Id, Item>, id: Id, invoiceId: Id, it: ItemInput): (r: map<Id, Item>)
    ensures r.Keys == items.Keys + {id}
    ensures forall j :: j in items && j != id ==> r[j] == items[j]
    ensures && r[id].description == it.description && r[id].price == it.price
            && r[id].productId == it.productId && r[id].count == it.count && r[id].total == it.total
    ensures id in items ==> && r[id].invoiceId == items[id].invoiceId
                            && r[id].discount == items[id].discount && r[id].netTotal == items[id].netTotal
    ensures id !in items ==> r[id].invoiceId == invoiceId
  {
    if id in items then
      items[id := items[id].(description := it.description, price := it.price, productId := it.productId,
                             count := it.count, total := it.total)]
    else
      items[id := Item(invoiceId, it.description, it.price, it.productId, it.count, it.total, None, None)]
  }

  /** The item rows after the upsert loop over `its` with settled ids `ids`. */
  function UpsertedItems(items: map<Id, Item>, invoiceId: Id, its: seq<ItemInput>, ids: seq<Id>): map<Id, Item>
    requires |ids| == |its|
  {
    if its == [] then items
    else
      UpsertItemRow(UpsertedItems(items, invoiceId, its[..|its| - 1], ids[..|ids| - 1]),
                    ids[|ids| - 1], invoiceId, its[|its| - 1])
  }

  /** `DELETE FROM invoice_items WHERE invoice_id = $1 AND id NOT IN ids`. */
  function DeleteMissing(items: map<Id, Item>, invoiceId: Id, ids: seq<Id>): (r: map<Id, Item>)
    ensures forall id :: id in r <==> id in items && (items[id].invoiceId != invoiceId || id in ids)
    ensures forall id :: id in r ==> r[id] == items[id]
  {
    map id | id in items && (items[id].invoiceId != invoiceId || id in ids) :: items[id]
  }

  /** After the upserts and the delete, every submitted id has a row; the
      invoice has no item whose id was not submitted; items of other
      invoices whose ids were not submitted are untouched; no row appears
      under an id that was neither there nor submitted. */
  lemma {:induction false} ReconcileItems(items: map<Id, Item>, invoiceId: Id, its: seq<ItemInput>, ids: seq<Id>)
    requires |ids| == |its|
    ensures var r := DeleteMissing(UpsertedItems(items, invoiceId, its, ids), invoiceId, ids);
      && (forall k :: 0 <= k < |ids| ==> ids[k] in r)
      && (forall id :: id in r && r[id].invoiceId == invoiceId ==> id in ids)
      && (forall id :: id in items && items[id].invoiceId != invoiceId && id !in ids ==> id in r && r[id] == items[id])
      && (forall id :: id in r ==> id in items || id in ids)
  {
    UpsertedItemsKeys(items, invoiceId, its, ids);
  }

  /** The upsert loop adds exactly the submitted ids and rewrites only their
      rows; a row keeps the invoice id it had, and a new row carries
      `invoiceId`. */
  lemma {:induction false} UpsertedItemsKeys(items: map<Id, Item>, invoiceId: Id, its: seq<ItemInput>, ids: seq<Id>)
    requires |ids| == |its|
    ensures var u := UpsertedItems(items, invoiceId, its, ids);
      && (forall id :: id in u <==> id in items || id in ids)
      && (forall id :: id in items && id !in ids ==> u[id] == items[id])
      && (forall id :: id in u ==> u[id].invoiceId == if id in items then items[id].invoiceId else invoiceId)
  {
    if its != [] {
      var ids0 := ids[..|ids| - 1];
      UpsertedItemsKeys(items, invoiceId, its[..|its| - 1], ids0);
      assert forall id :: id in ids <==> id in ids0 || id == ids[|ids| - 1] by {
        assert ids == ids0 + [ids[|ids| - 1]];
      }
    }
  }

  /** No upsert among the first n fails. */
  predicate EditsSucceed(fails: Stmt -> bool, n: nat) {
    forall k :: 0 <= k < n ==> !fails(UpsertItem(k))
  }

  lemma EditsSucceedSnoc(fails: Stmt -> bool, n: nat)
    requires EditsSucceed(fails, n) && !fails(UpsertItem(n))
    ensures EditsSucceed(fails, n + 1)
  {
  }

  /** `EditInvoice`: update the header named by the path id, then for each
      submitted item settle its id (a fresh one for `Nil`) and upsert it under
      the body's invoice id, then delete the body's invoice's items whose ids
      were not submitted; commit. Any failure leaves the tables as they were.
      The id source first moves past the body's invoice id, which the new
      item rows carry, so that `uuid.New` never hands it out again. */
  method EditInvoice(db: InvoiceDb, id: Id, inv: InvoiceInput, fails: Stmt -> bool)
    returns (err: Option<Stmt>, db': InvoiceDb)
    requires Inv(db)
    ensures Inv(db') && db'.nextId >= db.nextId
    ensures err.None? <==>
              !fails(Begin) && !fails(UpdateInvoice) && EditsSucceed(fails, |inv.items|)
              && !fails(DeleteItems) && !fails(Commit)
    ensures err.Some? ==> fails(err.value) && db'.invoices == db.invoices && db'.items == db.items
    ensures err.None? ==> db' == Edited(db, id, inv)
  {
    if fails(Begin) {
      return Some(Begin), db;
    }
    if fails(UpdateInvoice) {
      return Some(UpdateInvoice), db;
    }
    var start := Max(db.nextId, inv.id + 1);
    var fault, items, ids, next := UpsertItems(db.(nextId := start), inv, fails);
    SourceMovedInv(db, next);
    if fault.Some? {
      return fault, db.(nextId := next);
    }
    if fails(DeleteItems) {
      return Some(DeleteItems), db.(nextId := next);
    }
    items := DeleteMissing(items, inv.id, ids);
    if fails(Commit) {
      return Some(Commit), db.(nextId := next);
    }
    EditedResult(db, id, inv, start, ids, items, next);
    return None, InvoiceDb(UpdatedHeader(db.invoices, id, inv), items, next);
  }

  /** The tables the statements of `EditInvoice` leave, once its id source
      starts at `start`, are `Edited`, and they keep the invariant. */
  lemma EditedResult(db: InvoiceDb, id: Id, inv: InvoiceInput, start: nat, ids: seq<Id>, items: map<Id, Item>, next: nat)
    requires Inv(db) && start == Max(db.nextId, inv.id + 1)
    requires ids == Settle(inv.items, start).0 && next == Settle(inv.items, start).1
    requires items == DeleteMissing(UpsertedItems(db.items, inv.id, inv.items, ids), inv.id, ids)
    ensures InvoiceDb(UpdatedHeader(db.invoices, id, inv), items, next) == Edited(db, id, inv)
    ensures Inv(Edited(db, id, inv))
  {
    EditKeepsInv(db, id, inv);
  }

  /** Moving the id source forward keeps the invariant. */
  lemma SourceMovedInv(db: InvoiceDb, next: nat)
    requires Inv(db) && next >= db.nextId
    ensures Inv(db.(nextId := next))
  {
  }

  /** The item loop of `EditInvoice`: settle each item's id and upsert it,
      stopping at the first failing statement. */
  method UpsertItems(db: InvoiceDb, inv: InvoiceInput, fails: Stmt -> bool)
    returns (fault: Option<Stmt>, items: map<Id, Item>, ids: seq<Id>, next: nat)
    requires db.nextId >= 1
    ensures next >= db.nextId
    ensures fault.None? <==> EditsSucceed(fails, |inv.items|)
    ensures fault.Some? ==> fails(fault.value)
    ensures fault.None? ==> ids == Settle(inv.items, db.nextId).0 && next == Settle(inv.items, db.nextId).1
    ensures fault.None? ==> items == UpsertedItems(db.items, inv.id, inv.items, ids)
  {
    items, ids, next := db.items, [], db.nextId;
    var k := 0;
    while k < |inv.items|
      invariant 0 <= k <= |inv.items|
      invariant ids == Settle(inv.items[..k], db.nextId).0 && next == Settle(inv.items[..k], db.nextId).1
      invariant items == UpsertedItems(db.items, inv.id, inv.items[..k], ids)
      invariant EditsSucceed(fails, k)
    {
      ghost var ids0, next0, items0 := ids, next, items;
      var it := inv.items[k];
      var itemId;
      if it.id == Nil {
        itemId, next := next, next + 1;
      } else {
        itemId, next := it.id, Max(next, it.id + 1);
      }
      ids := ids + [itemId];
      if fails(UpsertItem(k)) {
        return Some(UpsertItem(k)), items, ids, next;
      }
      items := UpsertItemRow(items, itemId, inv.id, it);
      SettleStep(inv.items, k, db.nextId, ids0, next0);
      UpsertedStep(db.items, inv.id, inv.items, k, ids0, itemId);
      EditsSucceedSnoc(fails, k);
      k := k + 1;
    }
    assert inv.items[..|inv.items|] == inv.items;
    fault := None;
  }

  /** Settling one more item extends the settled ids by its id. */
  lemma SettleStep(its: seq<ItemInput>, k: nat, start: nat, ids: seq<Id>, next: nat)
    requires start >= 1 && k < |its|
    requires Settle(its[..k], start) == (ids, next)
    ensures Settle(its[..k + 1], start) ==
              if its[k].id == Nil then (ids + [next], next + 1) else (ids + [its[k].id], Max(next, its[k].id + 1))
  {
    assert its[..k + 1][..k] == its[..k];
  }

  /** Upserting one more item is one more row upsert. */
  lemma UpsertedStep(items: map<Id, Item>, invoiceId: Id, its: seq<ItemInput>, k: nat, ids: seq<Id>, itemId: Id)
    requires k < |its| && |ids| == k
    ensures UpsertItemRow(UpsertedItems(items, invoiceId, its[..k], ids), itemId, invoiceId, its[k])
            == UpsertedItems(items, invoiceId, its[..k + 1], ids + [itemId])
  {
    assert its[..k + 1][..k] == its[..k];
    assert (ids + [itemId])[..k] == ids;
  }

  /** The database after a successful `EditInvoice`: the id source first
      moves past the body's invoice id. */
  function Edited(db: InvoiceDb, id: Id, inv: InvoiceInput): InvoiceDb
    requires db.nextId >= 1
  {
    EditedFrom(db, id, inv, Max(db.nextId, inv.id + 1))
  }

  /** The header update, the upserts with ids settled from `start`, and the
      delete of the items that were not submitted. */
  function EditedFrom(db: InvoiceDb, id: Id, inv: InvoiceInput, start: nat): InvoiceDb
    requires start >= 1
  {
    var settled := Settle(inv.items, start);
    InvoiceDb(UpdatedHeader(db.invoices, id, inv),
              DeleteMissing(UpsertedItems(db.items, inv.id, inv.items, settled.0), inv.id, settled.0), settled.1)
  }

  /** The edit keeps every id in use, and every invoice id an item refers
      to, non-Nil and below the id source. */
  lemma EditKeepsInv(db: InvoiceDb, id: Id, inv: InvoiceInput)
    requires Inv(db)
    ensures Inv(Edited(db, id, inv))
  {
    EditedFromInv(db, id, inv, Max(db.nextId, inv.id + 1));
  }

  lemma EditedFromInv(db: InvoiceDb, id: Id, inv: InvoiceInput, start: nat)
    requires Inv(db) && start >= db.nextId && start > inv.id
    ensures Inv(EditedFrom(db, id, inv, start))
  {
    var settled := Settle(inv.items, start);
    var ids, next := settled.0, settled.1;
    var u := UpsertedItems(db.items, inv.id, inv.items, ids);
    UpsertedItemsKeys(db.items, inv.id, inv.items, ids);
    forall j | j in u ensures Nil < j < next && u[j].invoiceId < next {
      if j !in db.items {
        var k :| 0 <= k < |ids| && ids[k] == j;
      }
    }
  }
}
