/** The product service of internal/services/products.go: the generation run,
    the purge of generated rows, and the creation and edit of one product.
    The database is a `State` value each service method receives and returns
    (the service itself holds no state but its connection pool). Database
    errors (a lost connection, a foreign key, a failed commit) are not
    modelled one by one: the parameter `fails` says which statements of a
    call fail, and a transaction is a snapshot of the tables that is put back
    when the call returns an error. */
module ProductStore {
  import opened Common
  import opened Products

  /** The statements a call issues, each named by its position in the call. */
  datatype Stmt =
    | QueryBases
    | QueryGenerators
    | Begin
    | UpsertProduct(gen: nat, base: nat)
    | CopyImages(gen: nat, base: nat)
    | CopyParams(gen: nat, base: nat)
    | Commit
    | DeleteGenerated
    | UpdateProduct
    | DetachImages
    | AttachImage(index: nat)
    | UpsertParam(index: nat)
    | InsertProduct
    | InsertParam(index: nat)

  /** Why a call returned an error: the input failed validation, a statement
      failed, or a statement violated a unique constraint. */
  datatype Failure = Invalid | Fault(at: Stmt) | UniqueViolation(at: Stmt)

  /** No statement of pairs (i, j) with i < g and j < b fails. */
  predicate PairsSucceed(fails: Stmt -> bool, g: nat, b: nat) {
    forall i, j :: 0 <= i < g && 0 <= j < b ==>
      !fails(UpsertProduct(i, j)) && !fails(CopyImages(i, j)) && !fails(CopyParams(i, j))
  }

  /** No statement of pairs (i, j) with j < b fails. */
  predicate RowSucceeds(fails: Stmt -> bool, i: nat, b: nat) {
    forall j :: 0 <= j < b ==>
      !fails(UpsertProduct(i, j)) && !fails(CopyImages(i, j)) && !fails(CopyParams(i, j))
  }

  lemma RowSucceedsSnoc(fails: Stmt -> bool, i: nat, j: nat)
    requires RowSucceeds(fails, i, j)
    requires !fails(UpsertProduct(i, j)) && !fails(CopyImages(i, j)) && !fails(CopyParams(i, j))
    ensures RowSucceeds(fails, i, j + 1)
  {
  }

  lemma PairsSucceedSnoc(fails: Stmt -> bool, i: nat, b: nat)
    requires PairsSucceed(fails, i, b) && RowSucceeds(fails, i, b)
    ensures PairsSucceed(fails, i + 1, b)
  {
  }

  lemma PairsSucceedStop(fails: Stmt -> bool, i: nat, g: nat, b: nat)
    requires i < g && !RowSucceeds(fails, i, b)
    ensures !PairsSucceed(fails, g, b)
  {
  }

  /** The statement of pair (i, j) that fails first. */
  function FirstPairFault(fails: Stmt -> bool, i: nat, j: nat): (s: Stmt)
    requires fails(UpsertProduct(i, j)) || fails(CopyImages(i, j)) || fails(CopyParams(i, j))
    ensures fails(s) && s in {UpsertProduct(i, j), CopyImages(i, j), CopyParams(i, j)}
  {
    if fails(UpsertProduct(i, j)) then UpsertProduct(i, j)
    else if fails(CopyImages(i, j)) then CopyImages(i, j)
    else CopyParams(i, j)
  }

  /** `uniqueStrings`: the elements of `input` in first-occurrence order, each
      once (a set of the values seen so far decides). */
  method UniqueStrings(input: seq<Text>) returns (result: seq<Text>)
    ensures result == Dedup(input)
    ensures forall x :: x in result <==> x in input
    ensures forall i, j :: 0 <= i < j < |result| ==> result[i] != result[j]
  {
    var seen: set<Text> := {};
    result := [];
    var i := 0;
    while i < |input|
      invariant 0 <= i <= |input|
      invariant forall x :: x in seen <==> x in input[..i]
      invariant result == Dedup(input[..i])
    {
      var v := input[i];
      assert input[..i + 1][..i] == input[..i];
      if v !in seen {
        seen := seen + {v};
        result := result + [v];
      }
      i := i + 1;
    }
    assert input[..|input|] == input;
    DedupElements(input);
    DedupNoDuplicates(input);
  }

  /** The base-product query and its scan loop: every row with
      `generatable AND NOT generated`, each once. */
  method LoadBases(products: map<string, Product>, fails: Stmt -> bool) returns (r: Result<seq<Base>, Failure>)
    ensures r.Ok? <==> !fails(QueryBases)
    ensures r.Err? ==> r.error == Fault(QueryBases)
    ensures r.Ok? ==> IsBaseScan(r.value, products)
  {
    if fails(QueryBases) {
      return Err(Fault(QueryBases));
    }
    var rest := products.Keys;
    var acc: seq<Base> := [];
    while rest != {}
      invariant BasesScanned(products, rest, acc)
      decreases rest
    {
      var n :| n in rest;
      BasesScanStep(products, rest, acc, n);
      if IsBase(products[n]) {
        acc := acc + [Base(n, products[n])];
      }
      rest := rest - {n};
    }
    return Ok(acc);
  }

  /** The base scan so far: the rows outside `rest` have been read, and `acc`
      lists exactly the base rows among them, each once. */
  ghost predicate BasesScanned(products: map<string, Product>, rest: set<string>, acc: seq<Base>) {
    && rest <= products.Keys
    && (forall k :: 0 <= k < |acc| ==>
          && acc[k].name in products && acc[k].name !in rest
          && products[acc[k].name] == acc[k].row && IsBase(acc[k].row))
    && (forall n :: n in products && n !in rest && IsBase(products[n]) ==>
          exists k :: 0 <= k < |acc| && acc[k].name == n)
    && (forall k, l :: 0 <= k < l < |acc| ==> acc[k].name != acc[l].name)
  }

  /** Reading one more row keeps the base scan exact. */
  lemma BasesScanStep(products: map<string, Product>, rest: set<string>, acc: seq<Base>, n: string)
    requires BasesScanned(products, rest, acc) && n in rest
    ensures BasesScanned(products, rest - {n}, if IsBase(products[n]) then acc + [Base(n, products[n])] else acc)
  {
    var next := if IsBase(products[n]) then acc + [Base(n, products[n])] else acc;
    forall m | m in products && m !in rest - {n} && IsBase(products[m])
      ensures exists k :: 0 <= k < |next| && next[k].name == m
    {
      if m == n {
        assert next[|next| - 1].name == m;
      } else {
        var k :| 0 <= k < |acc| && acc[k].name == m;
        assert next[k] == acc[k];
      }
    }
  }

  /** The generator query and its scan loop: every entity with a parent and
      `show`, each once. */
  method LoadGenerators(entities: map<Id, Entity>, fails: Stmt -> bool) returns (r: Result<seq<Generator>, Failure>)
    ensures r.Ok? <==> !fails(QueryGenerators)
    ensures r.Err? ==> r.error == Fault(QueryGenerators)
    ensures r.Ok? ==> IsGeneratorScan(r.value, entities)
  {
    if fails(QueryGenerators) {
      return Err(Fault(QueryGenerators));
    }
    var rest := entities.Keys;
    var acc: seq<Generator> := [];
    while rest != {}
      invariant GeneratorsScanned(entities, rest, acc)
      decreases rest
    {
      var id :| id in rest;
      GeneratorsScanStep(entities, rest, acc, id);
      if IsGenerator(entities[id]) {
        acc := acc + [Generator(id, entities[id])];
      }
      rest := rest - {id};
    }
    return Ok(acc);
  }

  /** The generator scan so far: the entities outside `rest` have been read,
      and `acc` lists exactly the generators among them, each once. */
  ghost predicate GeneratorsScanned(entities: map<Id, Entity>, rest: set<Id>, acc: seq<Generator>) {
    && rest <= entities.Keys
    && (forall k :: 0 <= k < |acc| ==>
          && acc[k].id in entities && acc[k].id !in rest
          && entities[acc[k].id] == acc[k].entity && IsGenerator(acc[k].entity))
    && (forall id :: id in entities && id !in rest && IsGenerator(entities[id]) ==>
          exists k :: 0 <= k < |acc| && acc[k].id == id)
    && (forall k, l :: 0 <= k < l < |acc| ==> acc[k].id != acc[l].id)
  }

  /** Reading one more entity keeps the generator scan exact. */
  lemma GeneratorsScanStep(entities: map<Id, Entity>, rest: set<Id>, acc: seq<Generator>, id: Id)
    requires GeneratorsScanned(entities, rest, acc) && id in rest
    ensures GeneratorsScanned(entities, rest - {id},
                              if IsGenerator(entities[id]) then acc + [Generator(id, entities[id])] else acc)
  {
    var next := if IsGenerator(entities[id]) then acc + [Generator(id, entities[id])] else acc;
    forall e | e in entities && e !in rest - {id} && IsGenerator(entities[e])
      ensures exists k :: 0 <= k < |next| && next[k].id == e
    {
      if e == id {
        assert next[|next| - 1].id == e;
      } else {
        var k :| 0 <= k < |acc| && acc[k].id == e;
        assert next[k] == acc[k];
      }
    }
  }

  /** The tables of `after` are those of `before` (the id source may have moved on). */
  predicate SameTables(before: State, after: State) {
    after.products == before.products && after.images == before.images && after.params == before.params
  }

  /** `GenerateProducts`: for every generator and, inside, every base, upsert
      the derived row and copy the base's images and parameter values onto
      it, all in one transaction. On success the tables are the run of the
      pairs in loop order; on any failure they are as before. */
  method GenerateProducts(db: State, entities: map<Id, Entity>, fails: Stmt -> bool,
                          clash: (map<Id, Image>, Image) -> bool)
    returns (r: Result<seq<Product>, Failure>, db': State, ghost bases: seq<Base>, ghost gens: seq<Generator>)
    requires Inv(db)
    ensures Inv(db') && db'.nextId >= db.nextId
    ensures !fails(QueryBases) && !fails(QueryGenerators) ==>
              IsBaseScan(bases, db.products) && IsGeneratorScan(gens, entities)
    ensures r.Ok? <==>
              && !fails(QueryBases) && !fails(QueryGenerators) && !fails(Begin)
              && PairsSucceed(fails, |gens|, |bases|) && !fails(Commit)
    ensures r.Ok? ==> r.value == [] && db' == Run(db, Pairs(gens, bases), clash)
    ensures r.Err? ==> r.error.Fault? && fails(r.error.at) && SameTables(db, db')
  {
    bases, gens, db' := [], [], db;
    var lb := LoadBases(db.products, fails);
    if lb.Err? {
      return Err(lb.error), db', bases, gens;
    }
    var bs := lb.value;
    bases := bs;
    var lg := LoadGenerators(entities, fails);
    if lg.Err? {
      return Err(lg.error), db', bases, gens;
    }
    var gs := lg.value;
    gens := gs;
    if fails(Begin) {
      return Err(Fault(Begin)), db', bases, gens;
    }
    var fault;
    fault, db' := GenerateAll(db, gs, bs, fails, clash);
    if fault.Some? {
      return Err(Fault(fault.value)), Rollback(db, db'), bases, gens;
    }
    if fails(Commit) {
      return Err(Fault(Commit)), Rollback(db, db'), bases, gens;
    }
    RunInv(db, Pairs(gs, bs), clash);
    return Ok([]), db', bases, gens;
  }

  /** `tx.Rollback`: the tables as the transaction found them; the ids drawn
      meanwhile stay used. */
  function Rollback(saved: State, cur: State): (r: State)
    requires Inv(saved) && cur.nextId >= saved.nextId
    ensures Inv(r) && SameTables(saved, r) && r.nextId == cur.nextId
  {
    saved.(nextId := cur.nextId)
  }

  /** The outer loop, over every generator: it stops at the first failing
      statement and returns it, leaving the rollback to the caller. */
  method GenerateAll(db: State, gs: seq<Generator>, bs: seq<Base>, fails: Stmt -> bool,
                     clash: (map<Id, Image>, Image) -> bool)
    returns (fault: Option<Stmt>, db': State)
    ensures db'.nextId >= db.nextId
    ensures fault.None? <==> PairsSucceed(fails, |gs|, |bs|)
    ensures fault.Some? ==> fails(fault.value)
    ensures fault.None? ==> db' == Run(db, Pairs(gs, bs), clash)
  {
    db' := db;
    var i := 0;
    while i < |gs|
      invariant 0 <= i <= |gs|
      invariant db' == Run(db, Pairs(gs[..i], bs), clash)
      invariant PairsSucceed(fails, i, |bs|)
    {
      ghost var before := db';
      fault, db' := GenerateRow(db', gs[i], i, bs, fails, clash);
      if fault.Some? {
        PairsSucceedStop(fails, i, |gs|, |bs|);
        return;
      }
      RowDone(db, gs, bs, i, fails, clash, before, db');
      i := i + 1;
    }
    assert gs[..|gs|] == gs;
    return None, db';
  }

  /** The outer loop's invariant carried over one generator. */
  lemma RowDone(db: State, gs: seq<Generator>, bs: seq<Base>, i: nat, fails: Stmt -> bool,
                clash: (map<Id, Image>, Image) -> bool, before: State, after: State)
    requires i < |gs|
    requires before == Run(db, Pairs(gs[..i], bs), clash) && after == Run(before, Row(gs[i], bs), clash)
    requires PairsSucceed(fails, i, |bs|) && RowSucceeds(fails, i, |bs|)
    ensures after == Run(db, Pairs(gs[..i + 1], bs), clash)
    ensures PairsSucceed(fails, i + 1, |bs|)
  {
    PairsNextGenerator(gs, bs, i);
    assert bs[..|bs|] == bs;
    RunAppend(db, Pairs(gs[..i], bs), Row(gs[i], bs), clash);
    PairsSucceedSnoc(fails, i, |bs|);
  }

  /** The inner loop, over every base for generator g (the i-th): it stops
      at the first failing statement and returns it, leaving the rollback to
      the caller. */
  method GenerateRow(db: State, g: Generator, i: nat, bs: seq<Base>, fails: Stmt -> bool,
                     clash: (map<Id, Image>, Image) -> bool)
    returns (fault: Option<Stmt>, db': State)
    ensures db'.nextId >= db.nextId
    ensures fault.None? <==> RowSucceeds(fails, i, |bs|)
    ensures fault.Some? ==> fails(fault.value)
    ensures fault.None? ==> db' == Run(db, Row(g, bs), clash)
  {
    db' := db;
    var j := 0;
    while j < |bs|
      invariant 0 <= j <= |bs|
      invariant db'.nextId >= db.nextId
      invariant db' == Run(db, Row(g, bs[..j]), clash)
      invariant RowSucceeds(fails, i, j)
    {
      ghost var before := db';
      var p := Pair(g, bs[j]);
      var keywords := UniqueStrings(bs[j].row.keywords + g.entity.keywords);
      var d := DeriveWith(p, keywords);
      var ok;
      ok, db' := GeneratePair(db', bs[j].row.id, DerivedName(p), d, i, j, fails, clash);
      if !ok {
        return Some(FirstPairFault(fails, i, j)), db';
      }
      PairDone(db, g, bs, j, i, fails, clash, before, db');
      j := j + 1;
    }
    assert bs[..|bs|] == bs;
    return None, db';
  }

  /** The inner loop's invariant carried over one base. */
  lemma PairDone(db: State, g: Generator, bs: seq<Base>, j: nat, i: nat, fails: Stmt -> bool,
                 clash: (map<Id, Image>, Image) -> bool, before: State, after: State)
    requires j < |bs|
    requires before == Run(db, Row(g, bs[..j]), clash)
    requires after == PairStep(before, Pair(g, bs[j]), clash)
    requires RowSucceeds(fails, i, j)
    requires !fails(UpsertProduct(i, j)) && !fails(CopyImages(i, j)) && !fails(CopyParams(i, j))
    ensures after == Run(db, Row(g, bs[..j + 1]), clash)
    ensures RowSucceeds(fails, i, j + 1)
  {
    RowSnoc(g, bs, j);
    RunSnoc(db, Row(g, bs[..j]), Pair(g, bs[j]), clash);
    RowSucceedsSnoc(fails, i, j);
  }

  /** One iteration of the inner loop, for the base product `baseId` and
      the derived row `d` under `name`: draw a candidate id, upsert, copy
      the images, copy the parameter values. It stops at the first failing
      statement of pair (i, j), leaving the rollback to the caller. */
  method GeneratePair(db: State, baseId: Id, name: string, d: Product, i: nat, j: nat, fails: Stmt -> bool,
                      clash: (map<Id, Image>, Image) -> bool)
    returns (ok: bool, db': State)
    ensures db'.nextId >= db.nextId
    ensures ok <==> !fails(UpsertProduct(i, j)) && !fails(CopyImages(i, j)) && !fails(CopyParams(i, j))
    ensures ok ==> db' == Place(db, baseId, name, d, clash)
  {
    if fails(UpsertProduct(i, j)) {
      return false, db.(nextId := db.nextId + 1);
    }
    var upserted := UpsertStmt(db, name, d);
    db' := upserted.0;
    if fails(CopyImages(i, j)) {
      return false, db';
    }
    db' := CopyImagesStmt(db', baseId, upserted.1, clash);
    if fails(CopyParams(i, j)) {
      return false, db';
    }
    db' := CopyParamsStmt(db', baseId, upserted.1);
    return true, db';
  }

  /** `DeleteGeneratedProducts`: one statement removing every generated row. */
  method DeleteGeneratedProducts(db: State, fails: Stmt -> bool) returns (r: Result<seq<Product>, Failure>, db': State)
    requires Inv(db)
    ensures Inv(db')
    ensures r.Ok? <==> !fails(DeleteGenerated)
    ensures r.Ok? ==> r.value == [] && db' == db.(products := Purge(db.products))
    ensures r.Err? ==> r.error == Fault(DeleteGenerated) && db' == db
  {
    if fails(DeleteGenerated) {
      return Err(Fault(DeleteGenerated)), db;
    }
    return Ok([]), db.(products := Purge(db.products));
  }
}
