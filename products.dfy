/** The product generation engine of internal/services/products.go as pure
    definitions: the rows it reads and writes, the derived row of one
    (generator, base) pair, keyword de-duplication, the upsert by name, the
    image and parameter-value copies, and the whole run as a fold over the
    pairs in loop order. The store that executes it is in module ProductStore. */
module Products {
  import opened Common
  import opened GoStrconv

  /** A row of `products`, keyed by its unique `name` in the store. */
  datatype Product = Product(
    id: Id,
    description: Text,
    info: Text,
    price: Text,
    count: Text,
    entityId: Option<Id>,
    categoryId: Option<Id>,
    brandId: Option<Id>,
    slug: Text,
    keywords: seq<Text>,
    imageId: Option<Id>,
    generated: bool,
    generatable: bool,
    show: bool,
    position: Text,
    code: Text)

  /** A row of `entities`, keyed by its id in the store. */
  datatype Entity = Entity(
    name: Text,
    description: Text,
    imageId: Option<Id>,
    price: Text,
    parentId: Option<Id>,
    show: bool,
    keywords: seq<Text>,
    entitySlug: Text)

  /** A row of `images`, keyed by its id in the store. */
  datatype Image = Image(name: string, url: string, productId: Option<Id>)

  /** The value columns of a parameter value. */
  datatype ParamValue = ParamValue(boolValue: Option<bool>, textValue: Text, selectableValue: Text)

  /** `product_parameter_values`, grouped by product: product id, then
      parameter id (the unique pair), to the value columns. A product with no
      values may be absent or map to an empty map; `ValuesOf` reads both alike. */
  type ParamTable = map<Id, map<Id, ParamValue>>

  /** The parameter values of one product. */
  function ValuesOf(params: ParamTable, pid: Id): map<Id, ParamValue> {
    if pid in params then params[pid] else map[]
  }

  /** A base product as loaded: its name and its row. */
  datatype Base = Base(name: string, row: Product)

  /** A generator entity as loaded: its id and its row. */
  datatype Generator = Generator(id: Id, entity: Entity)

  datatype Pair = Pair(gen: Generator, base: Base)

  /** The tables a generation run writes, and the id source (`uuid.New`,
      `gen_random_uuid`): every id handed out is `nextId` or above it. */
  datatype State = State(
    products: map<string, Product>,
    images: map<Id, Image>,
    params: ParamTable,
    nextId: nat)

  // ---------------------------------------------------------------------
  // Candidate sets
  // ---------------------------------------------------------------------

  /** The filter of the base-product query. */
  predicate IsBase(p: Product) {
    p.generatable && !p.generated
  }

  /** The filter of the generator-entity query. */
  predicate IsGenerator(e: Entity) {
    e.parentId.Some? && e.show
  }

  /** `bases` lists every base product of `products` exactly once, in some order. */
  ghost predicate IsBaseScan(bases: seq<Base>, products: map<string, Product>) {
    && (forall k :: 0 <= k < |bases| ==>
          bases[k].name in products && products[bases[k].name] == bases[k].row && IsBase(bases[k].row))
    && (forall n :: n in products && IsBase(products[n]) ==> exists k :: 0 <= k < |bases| && bases[k].name == n)
    && (forall k, l :: 0 <= k < l < |bases| ==> bases[k].name != bases[l].name)
  }

  /** `gens` lists every generator entity of `entities` exactly once, in some order. */
  ghost predicate IsGeneratorScan(gens: seq<Generator>, entities: map<Id, Entity>) {
    && (forall k :: 0 <= k < |gens| ==>
          gens[k].id in entities && entities[gens[k].id] == gens[k].entity && IsGenerator(gens[k].entity))
    && (forall id :: id in entities && IsGenerator(entities[id]) ==> exists k :: 0 <= k < |gens| && gens[k].id == id)
    && (forall k, l :: 0 <= k < l < |gens| ==> gens[k].id != gens[l].id)
  }

  // ---------------------------------------------------------------------
  // Keyword de-duplication (uniqueStrings)
  // ---------------------------------------------------------------------

  /** The elements of `s` in first-occurrence order, each once. */
  function Dedup<T(==)>(s: seq<T>): seq<T> {
    if s == [] then []
    else if s[|s| - 1] in s[..|s| - 1] then Dedup(s[..|s| - 1])
    else Dedup(s[..|s| - 1]) + [s[|s| - 1]]
  }

  /** Position of the first occurrence of `x` in `s`. */
  function FirstIndex<T(==)>(s: seq<T>, x: T): (i: nat)
    requires x in s
    ensures i < |s| && s[i] == x && x !in s[..i]
  {
    if x in s[..|s| - 1] then FirstIndex(s[..|s| - 1], x) else |s| - 1
  }

  lemma {:induction false} DedupElements<T>(s: seq<T>)
    ensures forall x :: x in Dedup(s) <==> x in s
  {
    if s != [] {
      DedupElements(s[..|s| - 1]);
      assert s == s[..|s| - 1] + [s[|s| - 1]];
    }
  }

  lemma {:induction false} DedupNoDuplicates<T>(s: seq<T>)
    ensures forall i, j :: 0 <= i < j < |Dedup(s)| ==> Dedup(s)[i] != Dedup(s)[j]
  {
    if s != [] {
      DedupNoDuplicates(s[..|s| - 1]);
      DedupElements(s[..|s| - 1]);
    }
  }

  /** Elements appear in the order of their first occurrence in the input. */
  lemma {:induction false} DedupFirstOccurrenceOrder<T>(s: seq<T>)
    ensures forall x :: x in Dedup(s) ==> x in s
    ensures forall i, j :: 0 <= i < j < |Dedup(s)| ==>
              FirstIndex(s, Dedup(s)[i]) < FirstIndex(s, Dedup(s)[j])
  {
    DedupElements(s);
    if s != [] {
      var init := s[..|s| - 1];
      DedupFirstOccurrenceOrder(init);
      DedupElements(init);
      var r := Dedup(s);
      forall i, j | 0 <= i < j < |r|
        ensures FirstIndex(s, r[i]) < FirstIndex(s, r[j])
      {
        assert r[i] in Dedup(init);
        if j < |Dedup(init)| {
          assert r[j] in Dedup(init);
        } else {
          assert r[j] == s[|s| - 1] && r[j] !in init;
        }
      }
    }
  }

  // ---------------------------------------------------------------------
  // The derived row of one pair
  // ---------------------------------------------------------------------

  /** `base.Name.String + " " + generator.Name.String`, the upsert key. */
  function DerivedName(p: Pair): string {
    p.base.name + " " + p.gen.entity.name.str
  }

  /** The summed price: each price parsed by Atoi (0 when unparseable), added
      in Go's 64-bit `int`, printed by Itoa. */
  function DerivedPrice(base: Product, gen: Entity): string {
    Itoa(Wrap64(Atoi(base.price.str) + Atoi(gen.price.str)))
  }

  /** The row the upsert writes for pair `p`, given its keyword list; the id is
      filled in by the upsert. Unset columns (`position`, `code`) are NULL. */
  function DeriveWith(p: Pair, keywords: seq<Text>): Product {
    var b := p.base.row;
    var g := p.gen.entity;
    Product(
      id := Nil,
      description := Str(b.description.str + " " + g.description.str),
      info := b.info,
      price := Str(DerivedPrice(b, g)),
      count := Str(b.count.str),
      entityId := Some(p.gen.id),
      categoryId := b.categoryId,
      brandId := b.brandId,
      slug := Str(b.slug.str + "_" + g.entitySlug.str),
      keywords := keywords,
      imageId := g.imageId,
      generated := true,
      generatable := false,
      show := true,
      position := Null,
      code := Null)
  }

  function Derive(p: Pair): Product {
    DeriveWith(p, Dedup(p.base.row.keywords + p.gen.entity.keywords))
  }

  /** The derived row's text columns, flags and references: names,
      descriptions and slugs concatenated, flags fixed, count/info/category/
      brand from the base, entity and image from the generator. */
  lemma DeriveColumns(p: Pair)
    ensures var d := Derive(p); var b := p.base.row; var g := p.gen.entity;
      && d.description == Str(b.description.str + " " + g.description.str)
      && d.slug == Str(b.slug.str + "_" + g.entitySlug.str)
      && d.generated && !d.generatable && d.show
      && d.entityId == Some(p.gen.id) && d.imageId == g.imageId
      && d.info == b.info && d.count == Str(b.count.str)
      && d.categoryId == b.categoryId && d.brandId == b.brandId
  {
  }

  /** The derived price parses back to the 64-bit sum of the two parsed prices. */
  lemma DerivePriceColumn(p: Pair)
    ensures var d := Derive(p);
      d.price.valid && Atoi(d.price.str) == Wrap64(Atoi(p.base.row.price.str) + Atoi(p.gen.entity.price.str))
  {
    var sum := Wrap64(Atoi(p.base.row.price.str) + Atoi(p.gen.entity.price.str));
    assert Derive(p).price == Str(Itoa(sum));
    AtoiItoa(sum);
  }

  /** The derived keywords: exactly those of base and generator, each once. */
  lemma DeriveKeywordsColumn(p: Pair)
    ensures var kw := Derive(p).keywords;
      && (forall x :: x in kw <==> x in p.base.row.keywords || x in p.gen.entity.keywords)
      && (forall i, j :: 0 <= i < j < |kw| ==> kw[i] != kw[j])
  {
    var all := p.base.row.keywords + p.gen.entity.keywords;
    DedupElements(all);
    DedupNoDuplicates(all);
  }

  /** When the sum fits in 64 bits the derived price reads back as the sum of
      the two parsed prices. */
  lemma DerivedPriceSum(base: Product, gen: Entity)
    requires IsInt64(Atoi(base.price.str) + Atoi(gen.price.str))
    ensures Atoi(DerivedPrice(base, gen)) == Atoi(base.price.str) + Atoi(gen.price.str)
  {
    AtoiItoa(Atoi(base.price.str) + Atoi(gen.price.str));
  }

  // ---------------------------------------------------------------------
  // Upsert by name
  // ---------------------------------------------------------------------

  /** `ON CONFLICT (name) DO UPDATE`: the columns of the SET list come from the
      new row and `show` is forced true; id, generated, generatable, position
      and code stay as they were. */
  function Overlay(existing: Product, d: Product): Product {
    existing.(
      description := d.description,
      info := d.info,
      price := d.price,
      count := d.count,
      entityId := d.entityId,
      categoryId := d.categoryId,
      brandId := d.brandId,
      slug := d.slug,
      keywords := d.keywords,
      imageId := d.imageId,
      show := true)
  }

  /** The upsert of row `d` under `name` with candidate id `freshId`; returns the
      new table and the id RETURNING yields. */
  function Upsert(products: map<string, Product>, name: string, d: Product, freshId: Id)
    : (r: (map<string, Product>, Id))
    ensures r.0.Keys == products.Keys + {name}
    ensures forall n :: n in products && n != name ==> r.0[n] == products[n]
    ensures name in products ==> r.1 == products[name].id && r.0[name] == Overlay(products[name], d)
    ensures name !in products ==> r.1 == freshId && r.0[name] == d.(id := freshId)
  {
    if name in products then (products[name := Overlay(products[name], d)], products[name].id)
    else (products[name := d.(id := freshId)], freshId)
  }

  /** What the conflict clause promises about the row that was already there. */
  lemma UpsertConflict(products: map<string, Product>, name: string, d: Product, freshId: Id)
    requires name in products
    ensures var (t, id) := Upsert(products, name, d, freshId); var e := products[name];
      && id == e.id && t[name].id == e.id
      && t[name].generated == e.generated && t[name].generatable == e.generatable
      && t[name].position == e.position && t[name].code == e.code
      && t[name].show
      && t[name].description == d.description && t[name].info == d.info
      && t[name].price == d.price && t[name].count == d.count
      && t[name].entityId == d.entityId && t[name].categoryId == d.categoryId
      && t[name].brandId == d.brandId && t[name].slug == d.slug
      && t[name].keywords == d.keywords && t[name].imageId == d.imageId
  {
  }

  // ---------------------------------------------------------------------
  // Copies of images and parameter values
  // ---------------------------------------------------------------------

  function CopyOf(img: Image, newId: Id): Image {
    Image(img.name, img.url, Some(newId))
  }

  /** Source image `k` is copied: it belongs to the base and its copy onto
      `newId` does not clash with the table. */
  predicate Copyable(images: map<Id, Image>, k: Id, baseId: Id, newId: Id,
                     clash: (map<Id, Image>, Image) -> bool)
  {
    k in images && images[k].productId == Some(baseId) && !clash(images, CopyOf(images[k], newId))
  }

  /** `INSERT INTO images ... SELECT ... WHERE product_id = base ON CONFLICT DO
      NOTHING`: every image of the base gets a copy attached to `newId` under a
      fresh id (`first + k` for source image `k`, from the block of ids
      `[first, first + first)` reserved for the statement), unless `clash` (a
      unique constraint other than the id, judged against the table as it was
      when the statement began) rejects it. The source rows are scanned by
      id; every image id in use is below `first`. */
  function CopiedImages(images: map<Id, Image>, baseId: Id, newId: Id, first: nat,
                        clash: (map<Id, Image>, Image) -> bool): map<Id, Image>
  {
    CopiedScan(images, baseId, newId, first, clash, first)
  }

  /** The copies of the source rows with ids below `n`. */
  function CopiedScan(images: map<Id, Image>, baseId: Id, newId: Id, first: nat,
                      clash: (map<Id, Image>, Image) -> bool, n: nat): map<Id, Image>
  {
    if n == 0 then images
    else
      var m := CopiedScan(images, baseId, newId, first, clash, n - 1);
      if Copyable(images, n - 1, baseId, newId, clash) then m[first + n - 1 := CopyOf(images[n - 1], newId)] else m
  }

  /** The scan keeps an existing image (its id is below `first`). */
  lemma {:induction false} CopiedScanKeeps(images: map<Id, Image>, baseId: Id, newId: Id, first: nat,
                                           clash: (map<Id, Image>, Image) -> bool, n: nat, k: Id)
    requires k in images && k < first
    ensures var r := CopiedScan(images, baseId, newId, first, clash, n);
      k in r && r[k] == images[k]
  {
    if n > 0 {
      CopiedScanKeeps(images, baseId, newId, first, clash, n - 1, k);
    }
  }

  /** An id the scan up to `n` adds is `first + k` for a copyable source `k < n`. */
  lemma {:induction false} CopiedScanNew(images: map<Id, Image>, baseId: Id, newId: Id, first: nat,
                                         clash: (map<Id, Image>, Image) -> bool, n: nat, c: Id)
    requires var r := CopiedScan(images, baseId, newId, first, clash, n); c in r && c !in images
    ensures var r := CopiedScan(images, baseId, newId, first, clash, n);
      && first <= c < first + n && Copyable(images, c - first, baseId, newId, clash)
      && r[c] == CopyOf(images[c - first], newId)
  {
    if n > 0 && !(c == first + n - 1 && Copyable(images, n - 1, baseId, newId, clash)) {
      CopiedScanNew(images, baseId, newId, first, clash, n - 1, c);
    }
  }

  /** The scan up to `n` adds the copy of each copyable source `k < n` under `first + k`. */
  lemma {:induction false} CopiedScanAdds(images: map<Id, Image>, baseId: Id, newId: Id, first: nat,
                                          clash: (map<Id, Image>, Image) -> bool, n: nat, k: Id)
    requires k < n && Copyable(images, k, baseId, newId, clash)
    ensures var r := CopiedScan(images, baseId, newId, first, clash, n);
      first + k in r && r[first + k] == CopyOf(images[k], newId)
  {
    if k < n - 1 {
      CopiedScanAdds(images, baseId, newId, first, clash, n - 1, k);
    }
  }

  /** When every existing image id is below `first`, the image copy keeps
      every existing image, adds a copy for each copyable image `k` of the
      base under id `first + k`, inside the reserved block, and adds nothing
      else. */
  lemma CopiedImagesEffect(images: map<Id, Image>, baseId: Id, newId: Id, first: nat,
                           clash: (map<Id, Image>, Image) -> bool)
    requires forall k :: k in images ==> k < first
    ensures var r := CopiedImages(images, baseId, newId, first, clash);
      && (forall k :: k in images ==> k in r && r[k] == images[k])
      && (forall c :: c in r && c !in images ==>
            && first <= c < first + first && Copyable(images, c - first, baseId, newId, clash)
            && r[c] == CopyOf(images[c - first], newId))
      && (forall k :: Copyable(images, k, baseId, newId, clash) ==>
            first + k in r && r[first + k] == CopyOf(images[k], newId))
  {
    var r := CopiedImages(images, baseId, newId, first, clash);
    forall k | k in images ensures k in r && r[k] == images[k] {
      CopiedScanKeeps(images, baseId, newId, first, clash, first, k);
    }
    forall c | c in r && c !in images
      ensures && first <= c < first + first && Copyable(images, c - first, baseId, newId, clash)
              && r[c] == CopyOf(images[c - first], newId)
    {
      CopiedScanNew(images, baseId, newId, first, clash, first, c);
    }
    forall k | Copyable(images, k, baseId, newId, clash) ensures first + k in r && r[first + k] == CopyOf(images[k], newId) {
      CopiedScanAdds(images, baseId, newId, first, clash, first, k);
    }
  }

  /** `INSERT INTO product_parameter_values ... SELECT ... ON CONFLICT
      (product_id, parameter_id) DO UPDATE`: for every parameter of the base,
      the target product gets the base's values; nothing else changes. */
  function CopiedParams(params: ParamTable, baseId: Id, newId: Id): ParamTable {
    if baseId in params then params[newId := ValuesOf(params, newId) + params[baseId]] else params
  }

  /** The parameter copy: the target gets the base's value for each of the
      base's parameters; every other value is kept; nothing else is added. */
  lemma CopiedParamsEffect(params: ParamTable, baseId: Id, newId: Id)
    ensures var r := CopiedParams(params, baseId, newId);
      && (forall q :: q in ValuesOf(params, baseId) ==>
            q in ValuesOf(r, newId) && ValuesOf(r, newId)[q] == ValuesOf(params, baseId)[q])
      && (forall pid, q :: q in ValuesOf(params, pid) && !(pid == newId && q in ValuesOf(params, baseId)) ==>
            q in ValuesOf(r, pid) && ValuesOf(r, pid)[q] == ValuesOf(params, pid)[q])
      && (forall pid, q :: q in ValuesOf(r, pid) ==>
            q in ValuesOf(params, pid) || (pid == newId && q in ValuesOf(params, baseId)))
  {
    var r := CopiedParams(params, baseId, newId);
    forall pid | pid != newId ensures ValuesOf(r, pid) == ValuesOf(params, pid) {
    }
  }

  // ---------------------------------------------------------------------
  // A run: the pairs in loop order, folded over the state
  // ---------------------------------------------------------------------

  /** Well-formedness the run keeps: product ids are unique, and every id in
      use, whether it names a row or refers to one (the product an image is
      attached to, the product a parameter value belongs to), is below the id
      source. */
  ghost predicate Inv(st: State) {
    && (forall n :: n in st.products ==> st.products[n].id < st.nextId)
    && (forall n, m :: n in st.products && m in st.products && n != m ==>
          st.products[n].id != st.products[m].id)
    && (forall k :: k in st.images ==> k < st.nextId && OwnerBelow(st.images[k], st.nextId))
    && (forall pid :: pid in st.params ==> pid < st.nextId)
  }

  /** The image is detached or attached to a product id below `bound`. */
  predicate OwnerBelow(img: Image, bound: Id) {
    img.productId.Some? ==> img.productId.value < bound
  }

  /** The upsert statement: row `d` under `name`, with a fresh candidate id
      drawn whether or not it is used; also yields the id RETURNING gave. */
  function UpsertStmt(st: State, name: string, d: Product): (State, Id) {
    var u := Upsert(st.products, name, d, st.nextId);
    (st.(products := u.0, nextId := st.nextId + 1), u.1)
  }

  /** The image copy onto `newId`, with fresh ids from the id source. */
  function CopyImagesStmt(st: State, baseId: Id, newId: Id, clash: (map<Id, Image>, Image) -> bool): State {
    st.(images := CopiedImages(st.images, baseId, newId, st.nextId, clash))
  }

  /** The parameter copy onto `newId`; the ids the image copy may have used
      are passed over. */
  function CopyParamsStmt(st: State, baseId: Id, newId: Id): State {
    st.(params := CopiedParams(st.params, baseId, newId), nextId := st.nextId + st.nextId)
  }

  /** The three statements of one iteration in turn: upsert, then copy the
      images and parameter values of the base product `baseId` onto the id
      RETURNING gave. */
  function Place(st: State, baseId: Id, name: string, d: Product,
                 clash: (map<Id, Image>, Image) -> bool): (r: State)
    ensures r.nextId > st.nextId
  {
    var u := UpsertStmt(st, name, d);
    CopyParamsStmt(CopyImagesStmt(u.0, baseId, u.1, clash), baseId, u.1)
  }

  /** The four tables Place leaves: the upserted products, the images with
      the copies, the parameter values with the copies, and the id source
      moved past the block reserved for the copies. */
  lemma PlaceTables(st: State, baseId: Id, name: string, d: Product, clash: (map<Id, Image>, Image) -> bool)
    ensures var u := Upsert(st.products, name, d, st.nextId); var t := Place(st, baseId, name, d, clash);
      && t.products == u.0
      && t.images == CopiedImages(st.images, baseId, u.1, st.nextId + 1, clash)
      && t.params == CopiedParams(st.params, baseId, u.1)
      && t.nextId == 2 * st.nextId + 2
  {
  }

  /** One iteration of the inner loop: place the derived row of pair p. */
  function PairStep(st: State, p: Pair, clash: (map<Id, Image>, Image) -> bool): (r: State)
    ensures r.nextId > st.nextId
  {
    Place(st, p.base.row.id, DerivedName(p), Derive(p), clash)
  }

  /** A pair keeps ids unique and below the id source. */
  lemma PairStepInv(st: State, p: Pair, clash: (map<Id, Image>, Image) -> bool)
    requires Inv(st)
    ensures Inv(PairStep(st, p, clash))
  {
    PlaceTables(st, p.base.row.id, DerivedName(p), Derive(p), clash);
    PlaceInv(st, p.base.row.id, DerivedName(p), Derive(p), clash, PairStep(st, p, clash));
  }

  /** The invariant after one placement, from the tables it leaves. */
  lemma PlaceInv(st: State, baseId: Id, name: string, d: Product, clash: (map<Id, Image>, Image) -> bool, t: State)
    requires Inv(st)
    requires t.products == Upsert(st.products, name, d, st.nextId).0
    requires t.images == CopiedImages(st.images, baseId, Upsert(st.products, name, d, st.nextId).1, st.nextId + 1, clash)
    requires t.params == CopiedParams(st.params, baseId, Upsert(st.products, name, d, st.nextId).1)
    requires t.nextId == 2 * st.nextId + 2
    ensures Inv(t)
  {
    var newId := Upsert(st.products, name, d, st.nextId).1;
    assert newId <= st.nextId;
    UpsertIds(st.products, name, d, st.nextId);
    CopiedImagesEffect(st.images, baseId, newId, st.nextId + 1, clash);
    forall k | k in t.images ensures k < t.nextId && OwnerBelow(t.images[k], t.nextId) {
      if k !in st.images {
        assert t.images[k] == CopyOf(st.images[k - (st.nextId + 1)], newId);
      }
    }
  }

  /** A derived row inserted under a fresh id starts with nothing of its
      own: its parameter values are exactly the base's, and every image
      attached to it is a copy made by this placement. */
  lemma PlaceFresh(st: State, baseId: Id, name: string, d: Product, clash: (map<Id, Image>, Image) -> bool)
    requires Inv(st) && name !in st.products
    ensures var t := Place(st, baseId, name, d, clash);
      && ValuesOf(t.params, st.nextId) == ValuesOf(st.params, baseId)
      && forall k :: k in t.images && t.images[k].productId == Some(st.nextId) ==> k !in st.images
  {
    PlaceTables(st, baseId, name, d, clash);
    CopiedImagesEffect(st.images, baseId, st.nextId, st.nextId + 1, clash);
  }

  /** An upsert whose candidate id is above every id in use keeps ids unique. */
  lemma UpsertIds(products: map<string, Product>, name: string, d: Product, freshId: Id)
    requires forall n :: n in products ==> products[n].id < freshId
    requires forall n, m :: n in products && m in products && n != m ==> products[n].id != products[m].id
    ensures var t := Upsert(products, name, d, freshId).0;
      && (forall n :: n in t ==> t[n].id <= freshId)
      && (forall n, m :: n in t && m in t && n != m ==> t[n].id != t[m].id)
  {
    var t := Upsert(products, name, d, freshId).0;
    forall n, m | n in t && m in t && n != m
      ensures t[n].id != t[m].id
    {
      if n != name && m != name {
        assert t[n] == products[n] && t[m] == products[m];
      }
    }
  }

  /** The pairs of one generator with every base, in base order. */
  function Row(g: Generator, bases: seq<Base>): (r: seq<Pair>)
    ensures |r| == |bases|
  {
    seq(|bases|, k requires 0 <= k < |bases| => Pair(g, bases[k]))
  }

  /** All pairs, generator-major: the order of the nested loops. */
  function Pairs(gens: seq<Generator>, bases: seq<Base>): seq<Pair> {
    if gens == [] then [] else Pairs(gens[..|gens| - 1], bases) + Row(gens[|gens| - 1], bases)
  }

  /** The state after processing pairs `ps` in order from `st`. */
  function Run(st: State, ps: seq<Pair>, clash: (map<Id, Image>, Image) -> bool): (r: State)
    ensures r.nextId >= st.nextId
  {
    if ps == [] then st else PairStep(Run(st, ps[..|ps| - 1], clash), ps[|ps| - 1], clash)
  }

  lemma {:induction false} RunInv(st: State, ps: seq<Pair>, clash: (map<Id, Image>, Image) -> bool)
    requires Inv(st)
    ensures Inv(Run(st, ps, clash))
  {
    if ps != [] {
      RunInv(st, ps[..|ps| - 1], clash);
      PairStepInv(Run(st, ps[..|ps| - 1], clash), ps[|ps| - 1], clash);
    }
  }

  /** Running two lists of pairs one after the other is running their concatenation. */
  lemma {:induction false} RunAppend(st: State, ps: seq<Pair>, qs: seq<Pair>, clash: (map<Id, Image>, Image) -> bool)
    ensures Run(Run(st, ps, clash), qs, clash) == Run(st, ps + qs, clash)
  {
    if qs == [] {
      assert ps + qs == ps;
    } else {
      var init, last := qs[..|qs| - 1], qs[|qs| - 1];
      RunAppend(st, ps, init, clash);
      AppendInit(ps, qs);
    }
  }

  /** One more pair is one more step. */
  lemma RunSnoc(st: State, ps: seq<Pair>, p: Pair, clash: (map<Id, Image>, Image) -> bool)
    ensures Run(st, ps + [p], clash) == PairStep(Run(st, ps, clash), p, clash)
  {
    AppendInit(ps, [p]);
  }

  lemma AppendInit<T>(ps: seq<T>, qs: seq<T>)
    requires qs != []
    ensures (ps + qs)[..|ps + qs| - 1] == ps + qs[..|qs| - 1]
    ensures (ps + qs)[|ps + qs| - 1] == qs[|qs| - 1]
  {
  }

  /** The names the pairs derive. */
  function DerivedNames(ps: seq<Pair>): set<string> {
    if ps == [] then {} else DerivedNames(ps[..|ps| - 1]) + {DerivedName(ps[|ps| - 1])}
  }

  /** A name is derived exactly when some pair derives it. */
  lemma {:induction false} DerivedNamesMembers(ps: seq<Pair>, n: string)
    ensures n in DerivedNames(ps) <==> exists k :: 0 <= k < |ps| && DerivedName(ps[k]) == n
  {
    if ps != [] {
      var init := ps[..|ps| - 1];
      DerivedNamesMembers(init, n);
      if exists k :: 0 <= k < |ps| && DerivedName(ps[k]) == n {
        var k :| 0 <= k < |ps| && DerivedName(ps[k]) == n;
        if k < |ps| - 1 {
          assert DerivedName(init[k]) == n;
        }
      }
      if exists k :: 0 <= k < |init| && DerivedName(init[k]) == n {
        var k :| 0 <= k < |init| && DerivedName(init[k]) == n;
        assert DerivedName(ps[k]) == n;
      }
    }
  }

  /** The derived row of the last pair in `ps` whose name is `n`. */
  function LastDerived(ps: seq<Pair>, n: string): Product
    requires n in DerivedNames(ps)
  {
    var last := ps[|ps| - 1];
    if DerivedName(last) == n then Derive(last) else LastDerived(ps[..|ps| - 1], n)
  }

  lemma DerivedNamesSnoc(ps: seq<Pair>)
    requires ps != []
    ensures DerivedNames(ps) == DerivedNames(ps[..|ps| - 1]) + {DerivedName(ps[|ps| - 1])}
  {
  }

  /** The generator-major layout: |G| * |B| pairs, pair (i, j) at i * |B| + j. */
  lemma {:induction false} PairsLayout(gens: seq<Generator>, bases: seq<Base>)
    ensures |Pairs(gens, bases)| == |gens| * |bases|
    ensures forall i, j :: 0 <= i < |gens| && 0 <= j < |bases| ==>
              Pairs(gens, bases)[i * |bases| + j] == Pair(gens[i], bases[j])
  {
    if gens != [] {
      var m := |gens| - 1;
      var b := |bases|;
      var init := gens[..m];
      PairsLayout(init, bases);
      var front := Pairs(init, bases);
      var row := Row(gens[m], bases);
      var ps := Pairs(gens, bases);
      assert ps == front + row;
      MulSucc(m, b);
      forall i, j | 0 <= i < |gens| && 0 <= j < b
        ensures ps[i * b + j] == Pair(gens[i], bases[j])
      {
        if i < m {
          MulLess(i, m, j, b);
          assert ps[i * b + j] == front[i * b + j];
          assert init[i] == gens[i];
        } else {
          assert ps[i * b + j] == row[j];
        }
      }
    }
  }

  lemma MulSucc(m: nat, b: nat)
    ensures (m + 1) * b == m * b + b
  {
  }

  lemma MulLess(i: nat, m: nat, j: nat, b: nat)
    requires i < m && j < b
    ensures i * b + j < m * b
  {
    assert (i + 1) * b <= m * b;
  }

  /** The prefix the loops have done after generator i and base j. */
  lemma RowSnoc(g: Generator, bases: seq<Base>, j: nat)
    requires j < |bases|
    ensures Row(g, bases[..j + 1]) == Row(g, bases[..j]) + [Pair(g, bases[j])]
  {
    var a := Row(g, bases[..j + 1]);
    var b := Row(g, bases[..j]) + [Pair(g, bases[j])];
    assert |a| == |b|;
    forall k | 0 <= k < |a| ensures a[k] == b[k] { }
  }

  lemma PairsPrefix(gens: seq<Generator>, bases: seq<Base>, i: nat, j: nat)
    requires i < |gens| && j < |bases|
    ensures Pairs(gens[..i], bases) + Row(gens[i], bases[..j + 1])
            == (Pairs(gens[..i], bases) + Row(gens[i], bases[..j])) + [Pair(gens[i], bases[j])]
  {
    RowSnoc(gens[i], bases, j);
    var P := Pairs(gens[..i], bases);
    var R := Row(gens[i], bases[..j]);
    assert P + (R + [Pair(gens[i], bases[j])]) == (P + R) + [Pair(gens[i], bases[j])];
  }

  lemma PairsNextGenerator(gens: seq<Generator>, bases: seq<Base>, i: nat)
    requires i < |gens|
    ensures Pairs(gens[..i + 1], bases) == Pairs(gens[..i], bases) + Row(gens[i], bases[..|bases|])
  {
    var prefix := gens[..i + 1];
    assert prefix != [] && |prefix| - 1 == i;
    assert prefix[..|prefix| - 1] == gens[..i] && prefix[|prefix| - 1] == gens[i];
    assert bases[..|bases|] == bases;
  }

  /** The product keys after a run: the old names plus the derived ones, at
      most one new row per pair. */
  lemma {:induction false} RunKeys(st: State, ps: seq<Pair>, clash: (map<Id, Image>, Image) -> bool)
        ensures Run(st, ps, clash).products.Keys == st.products.Keys + DerivedNames(ps)
  {
    if ps != [] {
      var init := ps[..|ps| - 1];
      var last := ps[|ps| - 1];
      RunKeys(st, init, clash);
      DerivedNamesSnoc(ps);
      PairStepKeys(Run(st, init, clash), last, clash);
    }
  }

  lemma PairStepKeys(st: State, p: Pair, clash: (map<Id, Image>, Image) -> bool)
        ensures PairStep(st, p, clash).products.Keys == st.products.Keys + {DerivedName(p)}
  {
  }

  /** At most one derived name per pair, so at most |G| * |B| derived rows. */
  lemma {:induction false} DerivedNamesBound(ps: seq<Pair>)
    ensures |DerivedNames(ps)| <= |ps|
  {
    if ps != [] {
      var init := ps[..|ps| - 1];
      DerivedNamesBound(init);
      DerivedNamesSnoc(ps);
    }
  }

  /** Rows whose name no pair derives are left exactly as they were. */
  lemma {:induction false} RunFrame(st: State, ps: seq<Pair>, clash: (map<Id, Image>, Image) -> bool, n: string)
        requires n in st.products && n !in DerivedNames(ps)
    ensures n in Run(st, ps, clash).products && Run(st, ps, clash).products[n] == st.products[n]
  {
    if ps != [] {
      var init := ps[..|ps| - 1];
      DerivedNamesSnoc(ps);
      RunFrame(st, init, clash, n);
    }
  }

  /** Row r still has the identity columns of row e. */
  predicate SameIdentity(r: Product, e: Product) {
    r.id == e.id && r.generated == e.generated && r.generatable == e.generatable
    && r.position == e.position && r.code == e.code
  }

  /** A row that existed before the run keeps its id, generated, generatable,
      position and code; a row the run inserted is generated and not generatable. */
  lemma {:induction false} RunIdentity(st: State, ps: seq<Pair>, clash: (map<Id, Image>, Image) -> bool, n: string)
        requires n in Run(st, ps, clash).products
    ensures var r := Run(st, ps, clash).products[n];
      if n in st.products then SameIdentity(r, st.products[n]) else r.generated && !r.generatable
  {
    if ps != [] {
      var init := ps[..|ps| - 1];
      var before := Run(st, init, clash);
      RunKeys(st, init, clash);
      PairStepIdentity(before, ps[|ps| - 1], clash, n);
      if n in before.products {
        RunIdentity(st, init, clash, n);
      }
    }
  }

  /** One pair keeps the identity of a row it finds and inserts a generated one. */
  lemma PairStepIdentity(st: State, p: Pair, clash: (map<Id, Image>, Image) -> bool, n: string)
    requires n in PairStep(st, p, clash).products
    ensures var r := PairStep(st, p, clash).products[n];
      if n in st.products then SameIdentity(r, st.products[n]) else r.generated && !r.generatable
  {
    PairStepProducts(st, p, clash);
  }

  /** The overlay columns of the row named n are those of the last pair that
      derives n: the last pair in loop order wins. Every derived name is present. */
  lemma {:induction false} RunLastWins(st: State, ps: seq<Pair>, clash: (map<Id, Image>, Image) -> bool)
        ensures forall n :: n in DerivedNames(ps) ==>
              n in Run(st, ps, clash).products &&
              Run(st, ps, clash).products[n] == Overlay(Run(st, ps, clash).products[n], LastDerived(ps, n))
  {
    if ps != [] {
      var init := ps[..|ps| - 1];
      var last := ps[|ps| - 1];
      RunLastWins(st, init, clash);
      DerivedNamesSnoc(ps);
      PairStepProducts(Run(st, init, clash), last, clash);
    }
  }

  /** When every derived name already exists, a run overlays each such row
      with its last derived row and touches nothing else. */
  lemma {:induction false} RunOnExisting(st: State, ps: seq<Pair>, clash: (map<Id, Image>, Image) -> bool)
    requires DerivedNames(ps) <= st.products.Keys
    ensures Run(st, ps, clash).products == OverlayAll(st.products, ps)
  {
    if ps != [] {
      var init := ps[..|ps| - 1];
      DerivedNamesSnoc(ps);
      RunOnExisting(st, init, clash);
      PairStepProducts(Run(st, init, clash), ps[|ps| - 1], clash);
      OverlayAllSnoc(st.products, ps);
    }
  }

  lemma PairStepProducts(st: State, p: Pair, clash: (map<Id, Image>, Image) -> bool)
    ensures PairStep(st, p, clash).products == Upsert(st.products, DerivedName(p), Derive(p), st.nextId).0
  {
    PlaceTables(st, p.base.row.id, DerivedName(p), Derive(p), clash);
  }


  lemma OverlayAllSnoc(products: map<string, Product>, ps: seq<Pair>)
    requires ps != [] && DerivedNames(ps) <= products.Keys
    ensures var R := OverlayAll(products, ps[..|ps| - 1]); var ln := DerivedName(ps[|ps| - 1]);
      ln in R && R[ln := Overlay(R[ln], Derive(ps[|ps| - 1]))] == OverlayAll(products, ps)
  {
    var init := ps[..|ps| - 1];
    var last := ps[|ps| - 1];
    DerivedNamesSnoc(ps);
    var ln := DerivedName(last);
    var R := OverlayAll(products, init);
    var M := OverlayAll(products, ps);
    var L := R[ln := Overlay(R[ln], Derive(last))];
    UpdateKeys(R, ln, Overlay(R[ln], Derive(last)));
    forall n | n in M ensures L[n] == M[n] {
      OverlayAllSnocAt(products, ps, n);
    }
    MapsAgree(L, M);
  }

  /** Updating a key already present adds no key. */
  lemma UpdateKeys<K, V>(m: map<K, V>, k: K, v: V)
    requires k in m
    ensures m[k := v].Keys == m.Keys
  {
  }

  /** Two maps with the same keys and the same value at each key are equal. */
  lemma MapsAgree<K, V>(a: map<K, V>, b: map<K, V>)
    requires a.Keys == b.Keys && forall k :: k in a ==> a[k] == b[k]
    ensures a == b
  {
  }

  /** OverlayAllSnoc at one name. */
  lemma OverlayAllSnocAt(products: map<string, Product>, ps: seq<Pair>, n: string)
    requires ps != [] && n in products
    ensures var R := OverlayAll(products, ps[..|ps| - 1]); var ln := DerivedName(ps[|ps| - 1]);
      var M := OverlayAll(products, ps);
      ln in products ==> R[ln := Overlay(R[ln], Derive(ps[|ps| - 1]))][n] == M[n]
  {
    var init := ps[..|ps| - 1];
    var last := ps[|ps| - 1];
    var ln := DerivedName(last);
    var R := OverlayAll(products, init);
    var M := OverlayAll(products, ps);
    DerivedNamesSnoc(ps);
    if n == ln {
      assert LastDerived(ps, n) == Derive(last);
      assert M[n] == Overlay(products[n], Derive(last));
      if n in DerivedNames(init) {
        OverlayTwice(products[n], LastDerived(init, n), Derive(last));
        assert R[n] == Overlay(products[n], LastDerived(init, n));
      } else {
        assert R[n] == products[n];
      }
    } else if n in DerivedNames(init) {
      assert LastDerived(ps, n) == LastDerived(init, n);
      assert M[n] == R[n];
    } else {
      assert M[n] == R[n];
    }
  }

  /** A later overlay replaces every column an earlier one set. */
  lemma OverlayTwice(e: Product, a: Product, d: Product)
    ensures Overlay(Overlay(e, a), d) == Overlay(e, d)
  {
  }

  /** Every existing row named by a pair overlaid with its last derived row. */
  function OverlayAll(products: map<string, Product>, ps: seq<Pair>): (r: map<string, Product>)
    ensures r.Keys == products.Keys
    ensures forall n :: n in r ==>
              r[n] == if n in DerivedNames(ps) then Overlay(products[n], LastDerived(ps, n)) else products[n]
  {
    map n | n in products ::
      if n in DerivedNames(ps) then Overlay(products[n], LastDerived(ps, n)) else products[n]
  }

  /** Running the same pairs again leaves the product table as the first run
      left it: the upsert by name is idempotent. */
  lemma RunIdempotent(st: State, ps: seq<Pair>, clash: (map<Id, Image>, Image) -> bool)
    ensures Run(Run(st, ps, clash), ps, clash).products == Run(st, ps, clash).products
  {
    var t := Run(st, ps, clash);
    RunLastWins(st, ps, clash);
    RunOnExisting(t, ps, clash);
    OverlayAllSettled(t.products, ps);
  }

  lemma OverlayAllSettled(products: map<string, Product>, ps: seq<Pair>)
    requires forall n :: n in DerivedNames(ps) ==>
               n in products && products[n] == Overlay(products[n], LastDerived(ps, n))
    ensures OverlayAll(products, ps) == products
  {
  }

  /** Images present before the run are never modified or removed. */
  lemma {:induction false} RunKeepsImages(st: State, ps: seq<Pair>, clash: (map<Id, Image>, Image) -> bool)
    requires Inv(st)
    ensures forall k :: k in st.images ==> k in Run(st, ps, clash).images && Run(st, ps, clash).images[k] == st.images[k]
  {
    if ps != [] {
      var before := Run(st, ps[..|ps| - 1], clash);
      var p := ps[|ps| - 1];
      RunKeepsImages(st, ps[..|ps| - 1], clash);
      RunInv(st, ps[..|ps| - 1], clash);
      PlaceKeepsImages(before, p.base.row.id, DerivedName(p), Derive(p), clash);
    }
  }

  /** One placement keeps every image present before it. */
  lemma PlaceKeepsImages(st: State, baseId: Id, name: string, d: Product, clash: (map<Id, Image>, Image) -> bool)
    requires Inv(st)
    ensures var t := Place(st, baseId, name, d, clash);
      forall k :: k in st.images ==> k in t.images && t.images[k] == st.images[k]
  {
    PlaceTables(st, baseId, name, d, clash);
    CopiedImagesEffect(st.images, baseId, Upsert(st.products, name, d, st.nextId).1, st.nextId + 1, clash);
  }

  // ---------------------------------------------------------------------
  // Purge
  // ---------------------------------------------------------------------

  /** `DELETE FROM products WHERE generated = TRUE`. */
  function Purge(products: map<string, Product>): (r: map<string, Product>)
    ensures forall n :: n in r <==> n in products && !products[n].generated
    ensures forall n :: n in r ==> r[n] == products[n]
  {
    map n | n in products && !products[n].generated :: products[n]
  }

  /** After a purge and a run, the generated rows are exactly those the run
      inserted: the derived names not held by a surviving (non-generated) row. */
  lemma PurgeThenGenerate(st: State, ps: seq<Pair>, clash: (map<Id, Image>, Image) -> bool)
        ensures var t := st.(products := Purge(st.products));
      forall n :: n in Run(t, ps, clash).products && Run(t, ps, clash).products[n].generated
             <==> n in DerivedNames(ps) && n !in t.products
  {
    var t := st.(products := Purge(st.products));
    RunKeys(t, ps, clash);
    forall n | n in Run(t, ps, clash).products
      ensures Run(t, ps, clash).products[n].generated <==> n !in t.products
    {
      RunIdentity(t, ps, clash, n);
    }
  }

  // ---------------------------------------------------------------------
  // Editing and creating one product (EditProduct, CreateProduct)
  // ---------------------------------------------------------------------

  /** One entry of `ProductParameterValues`. */
  datatype ParamInput = ParamInput(parameterId: Id, value: ParamValue)

  /** The columns a client submits for one product. */
  datatype ProductInput = ProductInput(
    name: string,
    description: Text,
    info: Text,
    price: Text,
    count: Text,
    categoryId: Option<Id>,
    brandId: Option<Id>,
    imageId: Option<Id>,
    slug: Text,
    keywords: seq<Text>,
    generatable: bool,
    show: bool,
    position: Text,
    code: Text,
    imageIds: seq<Id>,
    params: seq<ParamInput>)

  /** The columns `UPDATE products SET ...` writes (the name is the key). */
  function Edited(row: Product, input: ProductInput): Product {
    row.(
      description := input.description, info := input.info, price := input.price,
      count := input.count, categoryId := input.categoryId, brandId := input.brandId,
      imageId := input.imageId, slug := input.slug, keywords := input.keywords,
      generatable := input.generatable, show := input.show,
      position := input.position, code := input.code)
  }

  ghost predicate UniqueIds(products: map<string, Product>) {
    forall n, m :: n in products && m in products && n != m ==> products[n].id != products[m].id
  }

  /** The name of the row holding `id`, if any (ids are unique, so at most one). */
  ghost function NameOf(products: map<string, Product>, id: Id): (r: Option<string>)
    ensures r.Some? <==> exists n :: n in products && products[n].id == id
    ensures r.Some? ==> r.value in products && products[r.value].id == id
  {
    if exists n :: n in products && products[n].id == id then
      var n :| n in products && products[n].id == id; Some(n)
    else None
  }

  /** `UPDATE products SET name = ..., ...` on the row named n: None when the
      new name is held by another row (unique violation). */
  function Rename(products: map<string, Product>, n: string, input: ProductInput)
    : (r: Option<map<string, Product>>)
    requires n in products
    ensures r.None? <==> input.name != n && input.name in products
  {
    if input.name != n && input.name in products then None
    else Some((products - {n})[input.name := Edited(products[n], input)])
  }

  /** `UPDATE products SET ... WHERE id = $15`: when no row has the id nothing changes. */
  ghost function UpdateById(products: map<string, Product>, id: Id, input: ProductInput)
    : Option<map<string, Product>>
  {
    match NameOf(products, id)
    case None => Some(products)
    case Some(n) => Rename(products, n, input)
  }

  /** The update fails exactly on a name clash with another row; otherwise the
      row with the id moves to the new name and takes the submitted columns,
      every other row is kept under its name, and ids stay unique. */
  lemma UpdateByIdEffect(products: map<string, Product>, id: Id, input: ProductInput)
    requires UniqueIds(products)
    ensures var r := UpdateById(products, id, input);
      && (r.None? <==> exists n :: n in products && products[n].id == id && input.name != n && input.name in products)
      && (r.Some? ==> UniqueIds(r.value))
      && (r.Some? ==> forall n :: n in products && products[n].id != id ==> n in r.value && r.value[n] == products[n])
      && (r.Some? ==> forall n :: n in r.value && r.value[n].id != id ==> n in products && r.value[n] == products[n])
      && (r.Some? ==> forall n :: n in products && products[n].id == id ==>
            input.name in r.value && r.value[input.name] == Edited(products[n], input))
      && (r.Some? ==> forall n :: n in r.value && r.value[n].id == id ==> n == input.name)
  {
    var o := NameOf(products, id);
    if o.Some? {
      var n := o.value;
      if Rename(products, n, input).Some? {
        var t := Rename(products, n, input).value;
        assert t == (products - {n})[input.name := Edited(products[n], input)];
        forall m | m in t && t[m].id != id ensures m in products && t[m] == products[m] {
          assert m != input.name;
        }
      }
    }
  }

  /** `UPDATE images SET product_id = NULL WHERE product_id = $1`. */
  function Detached(images: map<Id, Image>, pid: Id): (r: map<Id, Image>)
    ensures r.Keys == images.Keys
  {
    map k | k in images :: if images[k].productId == Some(pid) then images[k].(productId := None) else images[k]
  }

  /** `UPDATE images SET product_id = $1 WHERE id = $2` for each listed id, in order. */
  function Attached(images: map<Id, Image>, ids: seq<Id>, pid: Id): (r: map<Id, Image>)
    ensures r.Keys == images.Keys
  {
    if ids == [] then images
    else
      var m := Attached(images, ids[..|ids| - 1], pid);
      var k := ids[|ids| - 1];
      if k in m then m[k := m[k].(productId := Some(pid))] else m
  }

  /** The listed images that exist are attached to `pid`; every other image
      is unchanged. */
  lemma {:induction false} AttachedOwners(images: map<Id, Image>, ids: seq<Id>, pid: Id)
    ensures forall k :: k in images ==>
              Attached(images, ids, pid)[k] == if k in ids then images[k].(productId := Some(pid)) else images[k]
  {
    if ids != [] {
      var init := ids[..|ids| - 1];
      AttachedOwners(images, init, pid);
      assert forall k :: k in ids <==> k in init || k == ids[|ids| - 1] by {
        assert ids == init + [ids[|ids| - 1]];
      }
    }
  }

  /** The images attached to `pid` are exactly the listed ones. */
  predicate OwnsExactly(images: map<Id, Image>, pid: Id, ids: seq<Id>) {
    forall k :: k in images ==> (images[k].productId == Some(pid) <==> k in ids)
  }

  /** Image reconciliation: after detaching and re-attaching, an image belongs
      to the product exactly when it was listed; images that belonged to it and
      were not listed are detached; every other image, and every name and url,
      is unchanged. Listed ids that name no image are ignored. */
  lemma {:induction false} ReconcileImages(images: map<Id, Image>, ids: seq<Id>, pid: Id)
    ensures var r := Attached(Detached(images, pid), ids, pid);
      && r.Keys == images.Keys
      && forall k :: k in images ==>
           && r[k].name == images[k].name && r[k].url == images[k].url
           && r[k].productId == (if k in ids then Some(pid)
                                 else if images[k].productId == Some(pid) then None
                                 else images[k].productId)
  {
    if ids != [] {
      var init := ids[..|ids| - 1];
      ReconcileImages(images, init, pid);
      assert forall k :: k in ids <==> k in init || k == ids[|ids| - 1] by {
        assert ids == init + [ids[|ids| - 1]];
      }
    }
  }

  /** `INSERT INTO product_parameter_values ... ON CONFLICT (parameter_id,
      product_id) DO UPDATE` for each entry, in order, on one product's values. */
  function UpsertedParams(values: map<Id, ParamValue>, ps: seq<ParamInput>): map<Id, ParamValue> {
    if ps == [] then values
    else UpsertedParams(values, ps[..|ps| - 1])[ps[|ps| - 1].parameterId := ps[|ps| - 1].value]
  }

  /** The value of the last entry for parameter q, if any. */
  function LastParam(ps: seq<ParamInput>, q: Id): Option<ParamValue> {
    if ps == [] then None
    else if ps[|ps| - 1].parameterId == q then Some(ps[|ps| - 1].value)
    else LastParam(ps[..|ps| - 1], q)
  }

  /** Parameter reconciliation: a listed parameter gets the value of its last
      entry; the product's unlisted parameter values are kept (not deleted). */
  lemma {:induction false} UpsertedParamsValues(values: map<Id, ParamValue>, ps: seq<ParamInput>)
    ensures var r := UpsertedParams(values, ps);
      && (forall q :: q in r <==> q in values || LastParam(ps, q).Some?)
      && (forall q :: q in r ==>
            r[q] == if LastParam(ps, q).Some? then LastParam(ps, q).value else values[q])
  {
    if ps != [] {
      UpsertedParamsValues(values, ps[..|ps| - 1]);
    }
  }

  /** No parameter is listed twice. */
  predicate DistinctParams(ps: seq<ParamInput>) {
    forall k, l :: 0 <= k < l < |ps| ==> ps[k].parameterId != ps[l].parameterId
  }

  /** The row `CreateProduct` inserts: the submitted columns, a fresh id, and
      the column defaults for `generated` (false) and `entity_id` (NULL). */
  function NewProduct(input: ProductInput, id: Id): Product {
    Edited(Product(id, Null, Null, Null, Null, None, None, None, Null, [], None, false, false, false, Null, Null), input)
  }

  /** Plain `INSERT INTO product_parameter_values` for each entry, in order, on
      one product's values; None when an entry repeats a parameter already present. */
  function InsertedParams(values: map<Id, ParamValue>, ps: seq<ParamInput>): Option<map<Id, ParamValue>> {
    if ps == [] then Some(values)
    else match InsertedParams(values, ps[..|ps| - 1])
      case None => None
      case Some(m) =>
        var q := ps[|ps| - 1].parameterId;
        if q in m then None else Some(m[q := ps[|ps| - 1].value])
  }

  /** For a product that has no parameter values yet, the inserts succeed
      exactly when no parameter is listed twice, and then give the same values
      as the upserts. */
  lemma {:induction false} InsertedParamsDistinct(ps: seq<ParamInput>)
    ensures InsertedParams(map[], ps).Some? <==> DistinctParams(ps)
    ensures InsertedParams(map[], ps).Some? ==>
              InsertedParams(map[], ps).value == UpsertedParams(map[], ps)
  {
    if ps != [] {
      var init := ps[..|ps| - 1];
      var q := ps[|ps| - 1].parameterId;
      InsertedParamsDistinct(init);
      UpsertedParamsValues(map[], init);
      if InsertedParams(map[], init).Some? {
        var m := InsertedParams(map[], init).value;
        if q in m {
          var k := LastIndexOf(init, q);
          assert ps[k].parameterId == ps[|ps| - 1].parameterId;
        } else {
          forall k | 0 <= k < |init| ensures init[k].parameterId != q {
            if init[k].parameterId == q { LastParamSome(init, k); }
          }
        }
      }
    }
  }

  lemma {:induction false} LastParamSome(ps: seq<ParamInput>, k: nat)
    requires k < |ps|
    ensures LastParam(ps, ps[k].parameterId).Some?
  {
    if k < |ps| - 1 && ps[|ps| - 1].parameterId != ps[k].parameterId {
      LastParamSome(ps[..|ps| - 1], k);
    }
  }

  lemma {:induction false} LastIndexOf(ps: seq<ParamInput>, q: Id) returns (k: nat)
    requires LastParam(ps, q).Some?
    ensures k < |ps| && ps[k].parameterId == q
  {
    if ps[|ps| - 1].parameterId == q {
      k := |ps| - 1;
    } else {
      k := LastIndexOf(ps[..|ps| - 1], q);
    }
  }
}
