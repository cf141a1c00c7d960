/** `CreateProduct` and `EditProduct` of internal/services/products.go: the
    statements each issues, with their fault points, over the database value
    of ProductStore. `validates` is the verdict of the struct validator on
    the submitted product (its tags are not part of this model). */
module ProductEdit {
  import opened Common
  import opened Products
  import opened ProductStore

  /** No `UPDATE images SET product_id` of the first n listed images fails. */
  predicate AttachesSucceed(fails: Stmt -> bool, n: nat) {
    forall k :: 0 <= k < n ==> !fails(AttachImage(k))
  }

  /** No parameter-value upsert of the first n entries fails. */
  predicate UpsertsSucceed(fails: Stmt -> bool, n: nat) {
    forall k :: 0 <= k < n ==> !fails(UpsertParam(k))
  }

  /** No parameter-value insert of the first n entries fails. */
  predicate InsertsSucceed(fails: Stmt -> bool, n: nat) {
    forall k :: 0 <= k < n ==> !fails(InsertParam(k))
  }

  lemma AttachesSucceedSnoc(fails: Stmt -> bool, n: nat)
    requires AttachesSucceed(fails, n) && !fails(AttachImage(n))
    ensures AttachesSucceed(fails, n + 1)
  {
  }

  lemma UpsertsSucceedSnoc(fails: Stmt -> bool, n: nat)
    requires UpsertsSucceed(fails, n) && !fails(UpsertParam(n))
    ensures UpsertsSucceed(fails, n + 1)
  {
  }

  lemma InsertsSucceedSnoc(fails: Stmt -> bool, n: nat)
    requires InsertsSucceed(fails, n) && !fails(InsertParam(n))
    ensures InsertsSucceed(fails, n + 1)
  {
  }

  /** The image loop of both calls: attach each listed image to `pid`, in
      order, stopping at the first failing statement. */
  method AttachImages(images: map<Id, Image>, ids: seq<Id>, pid: Id, fails: Stmt -> bool)
    returns (fault: Option<Stmt>, r: map<Id, Image>)
    ensures fault.None? <==> AttachesSucceed(fails, |ids|)
    ensures fault.Some? ==> fails(fault.value)
    ensures fault.None? ==> r == Attached(images, ids, pid)
  {
    r := images;
    var k := 0;
    while k < |ids|
      invariant 0 <= k <= |ids|
      invariant r == Attached(images, ids[..k], pid)
      invariant AttachesSucceed(fails, k)
    {
      if fails(AttachImage(k)) {
        return Some(AttachImage(k)), r;
      }
      var img := ids[k];
      if img in r {
        r := r[img := r[img].(productId := Some(pid))];
      }
      assert ids[..k + 1][..k] == ids[..k];
      AttachesSucceedSnoc(fails, k);
      k := k + 1;
    }
    assert ids[..|ids|] == ids;
    return None, r;
  }

  /** The parameter loop of `EditProduct`: an `ON CONFLICT DO UPDATE` insert
      per entry, in order, stopping at the first failing statement. */
  method UpsertParams(values: map<Id, ParamValue>, ps: seq<ParamInput>, fails: Stmt -> bool)
    returns (fault: Option<Stmt>, r: map<Id, ParamValue>)
    ensures fault.None? <==> UpsertsSucceed(fails, |ps|)
    ensures fault.Some? ==> fails(fault.value)
    ensures fault.None? ==> r == UpsertedParams(values, ps)
  {
    r := values;
    var k := 0;
    while k < |ps|
      invariant 0 <= k <= |ps|
      invariant r == UpsertedParams(values, ps[..k])
      invariant UpsertsSucceed(fails, k)
    {
      if fails(UpsertParam(k)) {
        return Some(UpsertParam(k)), r;
      }
      r := r[ps[k].parameterId := ps[k].value];
      assert ps[..k + 1][..k] == ps[..k];
      UpsertsSucceedSnoc(fails, k);
      k := k + 1;
    }
    assert ps[..|ps|] == ps;
    return None, r;
  }

  /** The parameter loop of `CreateProduct`: a plain insert per entry, in
      order, stopping at the first failing statement or at the first entry
      whose (product, parameter) pair is already present. */
  method InsertParams(values: map<Id, ParamValue>, ps: seq<ParamInput>, fails: Stmt -> bool)
    returns (failure: Option<Failure>, r: map<Id, ParamValue>)
    ensures failure.None? <==> InsertsSucceed(fails, |ps|) && InsertedParams(values, ps).Some?
    ensures failure.Some? ==>
              || (failure.value.Fault? && fails(failure.value.at))
              || (failure.value.UniqueViolation? && failure.value.at.InsertParam? && InsertedParams(values, ps).None?)
    ensures failure.None? ==> r == InsertedParams(values, ps).value
  {
    r := values;
    var k := 0;
    while k < |ps|
      invariant 0 <= k <= |ps|
      invariant InsertedParams(values, ps[..k]) == Some(r)
      invariant InsertsSucceed(fails, k)
    {
      if fails(InsertParam(k)) {
        return Some(Fault(InsertParam(k))), r;
      }
      var key := ps[k].parameterId;
      assert ps[..k + 1][..k] == ps[..k];
      if key in r {
        InsertedParamsStuck(values, ps, k + 1);
        return Some(UniqueViolation(InsertParam(k))), r;
      }
      r := r[key := ps[k].value];
      InsertsSucceedSnoc(fails, k);
      k := k + 1;
    }
    assert ps[..|ps|] == ps;
    return None, r;
  }

  /** A failed insert fails the whole list: once a prefix is None, so is the list. */
  lemma {:induction false} InsertedParamsStuck(values: map<Id, ParamValue>, ps: seq<ParamInput>, k: nat)
    requires k <= |ps| && InsertedParams(values, ps[..k]).None?
    ensures InsertedParams(values, ps).None?
    decreases |ps| - k
  {
    if k < |ps| {
      assert ps[..k + 1][..k] == ps[..k];
      InsertedParamsStuck(values, ps, k + 1);
    } else {
      assert ps[..k] == ps;
    }
  }

  /** The row with the id, found by a scan of the table (the `WHERE id = $15`
      of the update). */
  method FindById(products: map<string, Product>, id: Id) returns (r: Option<string>)
    ensures r.Some? ==> r.value in products && products[r.value].id == id
    ensures r.None? ==> forall n :: n in products ==> products[n].id != id
  {
    var rest := products.Keys;
    while rest != {}
      invariant rest <= products.Keys
      invariant forall n :: n in products && n !in rest ==> products[n].id != id
      decreases rest
    {
      var n :| n in rest;
      if products[n].id == id {
        return Some(n);
      }
      rest := rest - {n};
    }
    return None;
  }

  /** The update statement of `EditProduct` on the products table: Err on a
      name clash, the updated table otherwise. It agrees with `UpdateById`. */
  method UpdateProductRow(products: map<string, Product>, id: Id, input: ProductInput)
    returns (r: Option<map<string, Product>>)
    requires UniqueIds(products)
    ensures r == UpdateById(products, id, input)
  {
    var found := FindById(products, id);
    if found.None? {
      return Some(products);
    }
    NameOfUnique(products, id, found.value);
    r := Rename(products, found.value, input);
  }

  lemma NameOfUnique(products: map<string, Product>, id: Id, n: string)
    requires UniqueIds(products) && n in products && products[n].id == id
    ensures NameOf(products, id) == Some(n)
  {
  }

  /** The update keeps the invariant of the database: ids stay unique and
      below the id source. */
  lemma UpdateByIdInv(db: State, id: Id, input: ProductInput)
    requires Inv(db) && UpdateById(db.products, id, input).Some?
    ensures Inv(db.(products := UpdateById(db.products, id, input).value))
  {
    var r := UpdateById(db.products, id, input).value;
    UpdateByIdEffect(db.products, id, input);
    forall n | n in r ensures r[n].id < db.nextId {
      if r[n].id != id {
        assert n in db.products;
      } else {
        assert n == input.name;
        var m := NameOf(db.products, id).value;
        assert r[input.name] == Edited(db.products[m], input);
      }
    }
  }

  /** The statements `EditProduct` issues inside its transaction: detach the
      product's images, attach the listed ones, upsert the parameter values.
      Stops at the first failing statement. */
  method ReconcileProduct(db: State, id: Id, input: ProductInput, fails: Stmt -> bool)
    returns (fault: Option<Stmt>, images: map<Id, Image>, params: ParamTable)
    ensures fault.None? <==>
              !fails(DetachImages) && AttachesSucceed(fails, |input.imageIds|) && UpsertsSucceed(fails, |input.params|)
    ensures fault.Some? ==> fails(fault.value)
    ensures fault.None? ==> images == Attached(Detached(db.images, id), input.imageIds, id)
    ensures fault.None? ==> params == db.params[id := UpsertedParams(ValuesOf(db.params, id), input.params)]
  {
    images, params := db.images, db.params;
    if fails(DetachImages) {
      return Some(DetachImages), images, params;
    }
    images := Detached(db.images, id);
    fault, images := AttachImages(images, input.imageIds, id, fails);
    if fault.Some? {
      return;
    }
    var values;
    fault, values := UpsertParams(ValuesOf(db.params, id), input.params, fails);
    params := db.params[id := values];
  }

  /** `EditProduct` as written: the products UPDATE runs on the pool, not on
      the transaction, so it is committed at once; a later failure rolls back
      only the image and parameter statements. When it commits, the id source
      moves past `id`, under which image links and parameter values may now
      be stored even if no product row has it: `uuid.New` never hands out an
      id already in use. */
  method EditProduct(db: State, id: Id, input: ProductInput, validates: bool, fails: Stmt -> bool)
    returns (r: Result<(), Failure>, db': State)
    requires Inv(db)
    ensures Inv(db') && db'.nextId == if r.Ok? then Max(db.nextId, id + 1) else db.nextId
    ensures r.Ok? <==>
              && validates && !fails(Begin) && !fails(UpdateProduct)
              && UpdateById(db.products, id, input).Some?
              && !fails(DetachImages) && AttachesSucceed(fails, |input.imageIds|)
              && UpsertsSucceed(fails, |input.params|) && !fails(Commit)
    ensures r.Ok? ==> db' == db.(products := UpdateById(db.products, id, input).value,
                                 images := Attached(Detached(db.images, id), input.imageIds, id),
                                 params := db.params[id := UpsertedParams(ValuesOf(db.params, id), input.params)],
                                 nextId := Max(db.nextId, id + 1))
    ensures !validates ==> r == Err(Invalid)
    ensures r == Err(UniqueViolation(UpdateProduct)) <==>
              validates && !fails(Begin) && !fails(UpdateProduct) && UpdateById(db.products, id, input).None?
    ensures r.Err? && r.error.Fault? ==> fails(r.error.at)
    ensures r.Err? ==> db'.images == db.images && db'.params == db.params
    // once the update has gone through, it stays, whatever fails after it
    ensures validates && !fails(Begin) && !fails(UpdateProduct) && UpdateById(db.products, id, input).Some? ==>
              db'.products == UpdateById(db.products, id, input).value
    // until the update has gone through, nothing changes
    ensures !(validates && !fails(Begin) && !fails(UpdateProduct) && UpdateById(db.products, id, input).Some?) ==> db' == db
  {
    if !validates {
      return Err(Invalid), db;
    }
    if fails(Begin) {
      return Err(Fault(Begin)), db;
    }
    if fails(UpdateProduct) {
      return Err(Fault(UpdateProduct)), db;
    }
    var updated := UpdateProductRow(db.products, id, input);
    if updated.None? {
      return Err(UniqueViolation(UpdateProduct)), db;
    }
    UpdateByIdInv(db, id, input);
    db' := db.(products := updated.value);
    var fault, images, params := ReconcileProduct(db, id, input, fails);
    if fault.Some? {
      return Err(Fault(fault.value)), db';
    }
    if fails(Commit) {
      return Err(Fault(Commit)), db';
    }
    EditInv(db, id, input);
    return Ok(()), db'.(images := images, params := params, nextId := Max(db.nextId, id + 1));
  }

  /** `EditProduct` with the products UPDATE issued on the transaction: a
      failure anywhere leaves the database as it was; a commit moves the id
      source past `id`, as in `EditProduct`. */
  method EditProductAtomic(db: State, id: Id, input: ProductInput, validates: bool, fails: Stmt -> bool)
    returns (r: Result<(), Failure>, db': State)
    requires Inv(db)
    ensures Inv(db') && db'.nextId == if r.Ok? then Max(db.nextId, id + 1) else db.nextId
    ensures r.Ok? <==>
              && validates && !fails(Begin) && !fails(UpdateProduct)
              && UpdateById(db.products, id, input).Some?
              && !fails(DetachImages) && AttachesSucceed(fails, |input.imageIds|)
              && UpsertsSucceed(fails, |input.params|) && !fails(Commit)
    ensures r.Ok? ==> db' == db.(products := UpdateById(db.products, id, input).value,
                                 images := Attached(Detached(db.images, id), input.imageIds, id),
                                 params := db.params[id := UpsertedParams(ValuesOf(db.params, id), input.params)],
                                 nextId := Max(db.nextId, id + 1))
    ensures !validates ==> r == Err(Invalid)
    ensures r == Err(UniqueViolation(UpdateProduct)) <==>
              validates && !fails(Begin) && !fails(UpdateProduct) && UpdateById(db.products, id, input).None?
    ensures r.Err? && r.error.Fault? ==> fails(r.error.at)
    ensures r.Err? ==> db' == db
  {
    if !validates {
      return Err(Invalid), db;
    }
    if fails(Begin) {
      return Err(Fault(Begin)), db;
    }
    if fails(UpdateProduct) {
      return Err(Fault(UpdateProduct)), db;
    }
    var updated := UpdateProductRow(db.products, id, input);
    if updated.None? {
      return Err(UniqueViolation(UpdateProduct)), db;
    }
    var fault, images, params := ReconcileProduct(db, id, input, fails);
    if fault.Some? {
      return Err(Fault(fault.value)), db;
    }
    if fails(Commit) {
      return Err(Fault(Commit)), db;
    }
    EditInv(db, id, input);
    return Ok(()), db.(products := updated.value, images := images, params := params, nextId := Max(db.nextId, id + 1));
  }

  /** A committed edit keeps the invariant: the product row keeps its id,
      and every image link and parameter value it writes is under `id`, which
      the id source has moved past. */
  lemma EditInv(db: State, id: Id, input: ProductInput)
    requires Inv(db) && UpdateById(db.products, id, input).Some?
    ensures Inv(db.(products := UpdateById(db.products, id, input).value,
                    images := Attached(Detached(db.images, id), input.imageIds, id),
                    params := db.params[id := UpsertedParams(ValuesOf(db.params, id), input.params)],
                    nextId := Max(db.nextId, id + 1)))
  {
    UpdateByIdInv(db, id, input);
    ReconcileImages(db.images, input.imageIds, id);
  }

  /** The id source names no product, no image owner and no parameter
      values: the product `CreateProduct` inserts under it starts with no
      parameter values, so its inserts succeed exactly when no parameter is
      listed twice, and then give the upserted values. */
  lemma FreshParams(db: State, ps: seq<ParamInput>)
    requires Inv(db)
    ensures ValuesOf(db.params, db.nextId) == map[]
    ensures InsertedParams(ValuesOf(db.params, db.nextId), ps).Some? <==> DistinctParams(ps)
    ensures DistinctParams(ps) ==> InsertedParams(ValuesOf(db.params, db.nextId), ps).value == UpsertedParams(map[], ps)
  {
    InsertedParamsDistinct(ps);
  }

  /** Inserting a row under the id source and attaching the listed images to
      it keeps the invariant once the source moves past it; the new product
      owns exactly the listed images, none of which it inherits from an
      earlier write. */
  lemma CreateInv(db: State, input: ProductInput, values: map<Id, ParamValue>)
    requires Inv(db) && input.name !in db.products
    ensures var images := Attached(db.images, input.imageIds, db.nextId);
      && Inv(State(db.products[input.name := NewProduct(input, db.nextId)], images, db.params[db.nextId := values], db.nextId + 1))
      && OwnsExactly(images, db.nextId, input.imageIds)
  {
    AttachedOwners(db.images, input.imageIds, db.nextId);
  }

  /** Drawing an id keeps the invariant. */
  lemma DrawInv(db: State)
    requires Inv(db)
    ensures Inv(db.(nextId := db.nextId + 1))
  {
  }

  /** `CreateProduct`: validate, then in one transaction insert the row under
      a fresh id, attach the listed images and insert the parameter values.
      Any failure leaves the tables as they were. */
  method CreateProduct(db: State, input: ProductInput, validates: bool, fails: Stmt -> bool)
    returns (r: Result<(), Failure>, db': State)
    requires Inv(db)
    ensures Inv(db') && db'.nextId >= db.nextId
    ensures r.Ok? <==>
              && validates && !fails(Begin) && !fails(InsertProduct) && input.name !in db.products
              && AttachesSucceed(fails, |input.imageIds|)
              && InsertsSucceed(fails, |input.params|) && DistinctParams(input.params)
              && !fails(Commit)
    ensures r.Ok? ==> db' == State(db.products[input.name := NewProduct(input, db.nextId)],
                                   Attached(db.images, input.imageIds, db.nextId),
                                   db.params[db.nextId := UpsertedParams(map[], input.params)],
                                   db.nextId + 1)
    ensures r.Ok? ==> OwnsExactly(db'.images, db.nextId, input.imageIds)
    ensures !validates ==> r == Err(Invalid)
    ensures r == Err(UniqueViolation(InsertProduct)) <==>
              validates && !fails(Begin) && !fails(InsertProduct) && input.name in db.products
    ensures r.Err? && r.error.Fault? ==> fails(r.error.at)
    ensures r.Err? ==> SameTables(db, db')
  {
    FreshParams(db, input.params);
    if !validates {
      return Err(Invalid), db;
    }
    if fails(Begin) {
      return Err(Fault(Begin)), db;
    }
    var id := db.nextId;
    var cur := db.(nextId := id + 1);
    DrawInv(db);
    if fails(InsertProduct) {
      return Err(Fault(InsertProduct)), cur;
    }
    if input.name in db.products {
      return Err(UniqueViolation(InsertProduct)), cur;
    }
    var failure, images, params := FillProduct(db, id, input, fails);
    if failure.Some? {
      return Err(failure.value), cur;
    }
    if fails(Commit) {
      return Err(Fault(Commit)), cur;
    }
    CreateInv(db, input, UpsertedParams(map[], input.params));
    return Ok(()), State(db.products[input.name := NewProduct(input, id)], images, params, id + 1);
  }

  /** The statements `CreateProduct` issues after inserting the row under
      `id`: attach the listed images, insert the parameter values. Stops at
      the first failing statement or duplicate parameter. */
  method FillProduct(db: State, id: Id, input: ProductInput, fails: Stmt -> bool)
    returns (failure: Option<Failure>, images: map<Id, Image>, params: ParamTable)
    ensures failure.None? <==>
              && AttachesSucceed(fails, |input.imageIds|)
              && InsertsSucceed(fails, |input.params|) && InsertedParams(ValuesOf(db.params, id), input.params).Some?
    ensures failure.Some? ==>
              || (failure.value.Fault? && fails(failure.value.at))
              || (failure.value.UniqueViolation? && failure.value.at.InsertParam?)
    ensures failure.None? ==> images == Attached(db.images, input.imageIds, id)
    ensures failure.None? ==> params == db.params[id := InsertedParams(ValuesOf(db.params, id), input.params).value]
  {
    params := db.params;
    var fault;
    fault, images := AttachImages(db.images, input.imageIds, id, fails);
    if fault.Some? {
      return Some(Fault(fault.value)), images, params;
    }
    var values;
    failure, values := InsertParams(ValuesOf(db.params, id), input.params, fails);
    if failure.None? {
      params := db.params[id := values];
    }
  }

  /** Faults where only the commit fails. */
  predicate OnlyCommitFails(s: Stmt) {
    s == Commit
  }

  /** A call of `EditProduct` as written whose commit fails: it reports an
      error, and yet the product row has moved to its new name. */
  method EditFailureWitness() returns (r: Result<(), Failure>, before: State, after: State)
    ensures r.Err? && "a" in before.products && "a" !in after.products && "b" in after.products
  {
    var row := Product(1, Null, Null, Null, Null, None, None, None, Null, [], None, false, false, true, Null, Null);
    before := State(map["a" := row], map[], map[], 2);
    var input := ProductInput("b", Null, Null, Null, Null, None, None, None, Null, [], false, true, Null, Null, [], []);
    NameOfUnique(before.products, 1, "a");
    assert UpdateById(before.products, 1, input) == Rename(before.products, "a", input);
    r, after := EditProduct(before, 1, input, true, OnlyCommitFails);
  }

  /** The same call of the corrected `EditProductAtomic`: the error leaves the
      database as it was. */
  method EditAtomicWitness() returns (r: Result<(), Failure>, before: State, after: State)
    ensures r.Err? && after == before && "a" in after.products && "b" !in after.products
  {
    var row := Product(1, Null, Null, Null, Null, None, None, None, Null, [], None, false, false, true, Null, Null);
    before := State(map["a" := row], map[], map[], 2);
    var input := ProductInput("b", Null, Null, Null, Null, None, None, None, Null, [], false, true, Null, Null, [], []);
    r, after := EditProductAtomic(before, 1, input, true, OnlyCommitFails);
  }
}
