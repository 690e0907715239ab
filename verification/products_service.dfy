/**
 * `ProductsService`: the `products` table as a map from id to row, the
 * serial counter that hands out ids, and the log of file names handed to
 * `UploadService.deleteFile`, which is how the service's side effects on the
 * upload directory are observed.
 */
module ProductsService {
  import opened Wrappers
  import opened Text
  import opened Errors
  import opened ProductEntity
  import opened ProductDtos
  import opened Table
  import opened Listing
  import opened Upload
  import opened Constraints
  import Json

  datatype Catalog = Catalog(products: map<int, Product>, nextId: int, deleted: seq<string>)

  /** A state the database can be in: rows under their own id, below the counter, within the columns. */
  predicate Valid(c: Catalog) {
    && c.nextId >= 1
    && KeysBelow(c.products, c.nextId)
    && (forall id :: id in c.products ==> c.products[id].id == id && FitsColumns(c.products[id]))
  }

  /** The state after an operation together with what it returned or threw. */
  datatype Step<T> = Step(catalog: Catalog, result: Result<T, Error>)

  /** The product stored under its own id. */
  predicate Stored(c: Catalog, p: Product) {
    p.id in c.products && c.products[p.id] == p
  }

  // ------------------------------------------------------------------ rows

  function RowsOf(m: map<int, Product>, ks: seq<int>): (rows: seq<Product>)
    requires forall i :: 0 <= i < |ks| ==> ks[i] in m
    ensures |rows| == |ks|
    ensures forall i :: 0 <= i < |ks| ==> rows[i] == m[ks[i]]
  {
    if ks == [] then [] else [m[ks[0]]] + RowsOf(m, ks[1..])
  }

  /** Each row appears once per key it is stored under, and keys are distinct. */
  lemma {:induction false} RowsOfCount(m: map<int, Product>, ks: seq<int>, p: Product)
    requires StrictlyIncreasing(ks)
    requires forall i :: 0 <= i < |ks| ==> ks[i] in m && m[ks[i]].id == ks[i]
    ensures multiset(RowsOf(m, ks))[p] == if p.id in ks && m[p.id] == p then 1 else 0
  {
    if ks != [] {
      var rest := ks[1..];
      assert StrictlyIncreasing(rest);
      RowsOfCount(m, rest, p);
      assert RowsOf(m, ks) == [m[ks[0]]] + RowsOf(m, rest);
      assert ks[0] !in rest;
      assert p.id in ks <==> p.id == ks[0] || p.id in rest;
      if p.id == ks[0] {
        assert m[ks[0]] == p <==> m[p.id] == p;
      } else {
        assert m[ks[0]] != p;
      }
    }
  }

  /** The table's rows in id order, as the query builder scans them. */
  function Rows(c: Catalog): (rows: seq<Product>)
    requires Valid(c)
    ensures forall p :: multiset(rows)[p] == if Stored(c, p) then 1 else 0
  {
    var ks := Keys(c.products, c.nextId);
    forall p ensures multiset(RowsOf(c.products, ks))[p] == if Stored(c, p) then 1 else 0 {
      RowsOfCount(c.products, ks, p);
    }
    RowsOf(c.products, ks)
  }

  // ------------------------------------------------------------- findAll

  /** `findAll`: the listing over the table's rows. */
  function FindAll(c: Catalog, q: ProductQuery): (r: Result<Listed, Error>)
    requires Valid(c) && PagingOk(q)
    ensures r.Failure? <==> q.order.Some? && q.order.value !in OrderNames
    ensures r.Success? ==>
      && |r.value.data| <= q.limit.GetOr(DefaultLimit)
      && forall i :: 0 <= i < |r.value.data| ==>
           var p := r.value.data[i];
           Stored(c, p) && p.isActive
           && (SearchApplies(q) ==> NameMatches(p.name, q.search.value))
           && (q.category.Some? ==> p.category == q.category.value)
  {
    assert forall p :: p in Rows(c) ==> Stored(c, p) by {
      forall p | p in Rows(c) ensures Stored(c, p) {
        assert multiset(Rows(c))[p] > 0;
      }
    }
    List(Rows(c), q)
  }

  /** Each stored active match occurs once among the ordered matches, in either direction. */
  lemma EachMatchOnce(c: Catalog, q: ProductQuery, dir: Direction, p: Product)
    requires Valid(c)
    ensures multiset(Ordered(Rows(c), q, dir))[p] == if Stored(c, p) && Matches(p, q) then 1 else 0
  {
  }

  /**
   * When no two matching rows tie on the sort column, every active matching
   * row is listed exactly once over all pages, and nothing else is: the
   * ordered matches are the only order `ORDER BY` can return them in, so
   * each page's query sees the same list, and the pages 1..totalPages
   * concatenate to it.
   */
  lemma EveryMatchListedOnce(c: Catalog, q: ProductQuery, p: Product)
    requires Valid(c) && PagingOk(q) && FindAll(c, q).Success?
    requires NoTies(multiset(Filter(Rows(c), q)), q.sortBy.GetOr(DefaultSortBy))
    ensures var dir := ParseDirection(q.order.GetOr(DefaultOrder)).value;
      var key := q.sortBy.GetOr(DefaultSortBy);
      var all := Ordered(Rows(c), q, dir);
      var limit := q.limit.GetOr(DefaultLimit);
      && (forall db :: SortedBy(db, key, dir) && multiset(db) == multiset(Filter(Rows(c), q)) ==> db == all)
      && Pages(all, limit, FindAll(c, q).value.meta.totalPages) == all
      && multiset(all)[p] == if Stored(c, p) && Matches(p, q) then 1 else 0
  {
    var dir := ParseDirection(q.order.GetOr(DefaultOrder)).value;
    var key := q.sortBy.GetOr(DefaultSortBy);
    var all := Ordered(Rows(c), q, dir);
    var limit := q.limit.GetOr(DefaultLimit);
    assert multiset(all) == multiset(Filter(Rows(c), q));
    forall db | SortedBy(db, key, dir) && multiset(db) == multiset(Filter(Rows(c), q)) ensures db == all {
      SortedWithoutTiesIsUnique(db, all, key, dir);
    }
    AllPagesReproduceList(all, limit);
    EachMatchOnce(c, q, dir, p);
  }

  // ------------------------------------------------------------- findOne

  /** `findOne`: the row under `id`, active or not. */
  function FindOne(c: Catalog, id: int): (r: Result<Product, Error>)
    ensures r.Failure? <==> id !in c.products
    ensures r.Failure? ==> r.error == ProductNotFound(id) && Status(r.error) == 404
    ensures r.Success? ==> r.value == c.products[id]
    ensures r.Success? && Valid(c) ==> Stored(c, r.value) && r.value.id == id
  {
    if id in c.products then Success(c.products[id]) else Failure(ProductNotFound(id))
  }

  // -------------------------------------------------------------- saving

  /** `repository.save` of a row that already exists. */
  function Save(c: Catalog, p: Product): (r: Step<Product>)
    ensures r.result.Success? <==> FitsColumns(p)
    ensures r.result.Success? ==> r.result == Success(p) && r.catalog == c.(products := c.products[p.id := p])
    ensures r.result.Failure? ==> r.result.error == ColumnOverflow && r.catalog == c
  {
    if FitsColumns(p) then Step(c.(products := c.products[p.id := p]), Success(p))
    else Step(c, Failure(ColumnOverflow))
  }

  /**
   * `repository.create` then `save`: the row gets the next serial id and the
   * column defaults. An absent stock takes the column default; an explicit
   * null is inserted as NULL, which the NOT NULL column refuses.
   */
  function Create(c: Catalog, np: NewProduct, now: int): (r: Step<Product>)
    requires Valid(c)
    ensures r.result.Failure? <==>
      || np.stock == Some(None)
      || !(|np.name| <= NameColumnLength && -PriceBound < np.price < PriceBound
           && (np.stock.Some? ==> IntegerMin <= np.stock.value.value <= IntegerMax))
    ensures r.result.Failure? ==> r.catalog == c
    ensures np.stock == Some(None) ==> r.result == Failure(NullColumn) && Status(r.result.error) == 500
    ensures r.result.Failure? && np.stock != Some(None) ==> r.result.error == ColumnOverflow
    ensures r.result.Success? ==>
      var p := r.result.value;
      && p.id !in c.products
      && Stored(r.catalog, p)
      && p.name == np.name && p.category == np.category && p.price == np.price
      && p.imageUrl == np.imageUrl && p.description == np.description
      && (np.stock.None? ==> p.stock == 0)
      && (np.stock.Some? ==> np.stock.value == Some(p.stock))
      && p.isActive && p.createdAt == now
      && (forall id :: id in r.catalog.products <==> id in c.products || id == p.id)
      && (forall id :: id in c.products ==> r.catalog.products[id] == c.products[id])
      && r.catalog.deleted == c.deleted
      && Valid(r.catalog)
  {
    match np.stock
    case Some(None) => Step(c, Failure(NullColumn))
    case None => InsertRow(c, np, DefaultStock, now)
    case Some(Some(stock)) => InsertRow(c, np, stock, now)
  }

  /** The INSERT of a new row with the given stock, under the next serial id. */
  function InsertRow(c: Catalog, np: NewProduct, stock: int, now: int): Step<Product> {
    var p := Product(c.nextId, np.name, np.category, np.price, np.imageUrl, np.description,
                     stock, DefaultIsActive, now);
    if FitsColumns(p) then Step(Catalog(c.products[p.id := p], c.nextId + 1, c.deleted), Success(p))
    else Step(c, Failure(ColumnOverflow))
  }

  // ------------------------------------------------------- image files

  /** JavaScript truthiness of a nullable string: present and not empty. */
  predicate Truthy(s: Option<string>) {
    s.Some? && s.value != ""
  }

  /**
   * The file the service hands to `deleteFile` for a stored image URL: the
   * last '/'-segment, when the URL and that segment are both non-empty.
   */
  function FileToRelease(imageUrl: Option<string>): (f: Option<string>)
    ensures f.Some? <==> Truthy(imageUrl) && LastSegment(imageUrl.value) != ""
    ensures f.Some? ==>
      && f.value != "" && '/' !in f.value && EndsWith(imageUrl.value, f.value)
      && (|f.value| == |imageUrl.value| || imageUrl.value[|imageUrl.value| - |f.value| - 1] == '/')
  {
    if Truthy(imageUrl) && LastSegment(imageUrl.value) != "" then Some(LastSegment(imageUrl.value)) else None
  }

  /** An image URL built by `getFileUrl` releases exactly the file it was built from. */
  lemma ReleasesUploadedFile(filename: string)
    requires filename != "" && '/' !in filename
    ensures FileToRelease(Some(GetFileUrl(filename))) == Some(filename)
  {
    FileUrlRoundTrip(filename);
  }

  /** A URL ending in '/' names no file, so nothing is deleted. */
  lemma TrailingSlashReleasesNothing(url: string)
    requires url != "" && url[|url| - 1] == '/'
    ensures FileToRelease(Some(url)) == None
  {
  }

  /** The names passed to `deleteFile` for an image URL: none or one. */
  function Released(imageUrl: Option<string>): seq<string> {
    match FileToRelease(imageUrl)
    case None => []
    case Some(f) => [f]
  }

  /** `deleteFile` on the file behind an image URL, if any; it never fails. */
  function Release(c: Catalog, imageUrl: Option<string>): (r: Catalog)
    ensures r.products == c.products && r.nextId == c.nextId
    ensures r.deleted == c.deleted + Released(imageUrl)
  {
    match FileToRelease(imageUrl)
    case None => c
    case Some(f) => c.(deleted := c.deleted + [f])
  }

  // -------------------------------------------------------------- update

  /**
   * A validated update body: each field absent (`None`) or present. Nullable
   * columns take `Some(None)` for an explicit null.
   */
  datatype Patch = Patch(
    name: Option<string>,
    category: Option<Category>,
    price: Option<int>,
    imageUrl: Option<Option<string>>,
    description: Option<Option<string>>,
    stock: Option<int>)

  const EmptyPatch := Patch(None, None, None, None, None, None)

  /** `Object.assign(product, dto)`: present fields overwrite, absent ones are kept. */
  function Apply(p: Product, patch: Patch): (r: Product)
    ensures r.id == p.id && r.isActive == p.isActive && r.createdAt == p.createdAt
    ensures patch.name.Some? ==> r.name == patch.name.value
    ensures patch.name.None? ==> r.name == p.name
    ensures patch.category.Some? ==> r.category == patch.category.value
    ensures patch.category.None? ==> r.category == p.category
    ensures patch.price.Some? ==> r.price == patch.price.value
    ensures patch.price.None? ==> r.price == p.price
    ensures patch.imageUrl.Some? ==> r.imageUrl == patch.imageUrl.value
    ensures patch.imageUrl.None? ==> r.imageUrl == p.imageUrl
    ensures patch.description.Some? ==> r.description == patch.description.value
    ensures patch.description.None? ==> r.description == p.description
    ensures patch.stock.Some? ==> r.stock == patch.stock.value
    ensures patch.stock.None? ==> r.stock == p.stock
  {
    p.(name := patch.name.GetOr(p.name),
       category := patch.category.GetOr(p.category),
       price := patch.price.GetOr(p.price),
       imageUrl := patch.imageUrl.GetOr(p.imageUrl),
       description := patch.description.GetOr(p.description),
       stock := patch.stock.GetOr(p.stock))
  }

  /** An empty patch changes nothing, and applying a patch twice is applying it once. */
  lemma ApplyLaws(p: Product, patch: Patch)
    ensures Apply(p, EmptyPatch) == p
    ensures Apply(Apply(p, patch), patch) == Apply(p, patch)
  {
  }

  /** The two patches differ only in the fields the second one sets. */
  lemma ApplyComposes(p: Product, a: Patch, b: Patch)
    ensures Apply(Apply(p, a), b) == Apply(p, Patch(
      if b.name.Some? then b.name else a.name,
      if b.category.Some? then b.category else a.category,
      if b.price.Some? then b.price else a.price,
      if b.imageUrl.Some? then b.imageUrl else a.imageUrl,
      if b.description.Some? then b.description else a.description,
      if b.stock.Some? then b.stock else a.stock))
  {
  }

  /** Does the patch bring a (truthy) new image URL? */
  predicate PatchSetsImage(patch: Patch) {
    patch.imageUrl.Some? && Truthy(patch.imageUrl.value)
  }

  /**
   * `update`: find, release the old image when the patch brings a new one,
   * assign, save. The file is released before the save, so a refused save
   * still leaves the deletion behind.
   */
  function Update(c: Catalog, id: int, patch: Patch): (r: Step<Product>)
    requires Valid(c)
    ensures Valid(r.catalog)
    ensures id !in c.products ==> r == Step(c, Failure(ProductNotFound(id)))
    ensures id in c.products ==>
      var prev := c.products[id];
      && r.catalog.deleted == c.deleted + (if PatchSetsImage(patch) then Released(prev.imageUrl) else [])
      && r.catalog.nextId == c.nextId
      && (r.result.Success? <==> FitsColumns(Apply(prev, patch)))
      && (r.result.Success? ==>
            r.result.value == Apply(prev, patch) && r.catalog.products == c.products[id := Apply(prev, patch)])
      && (r.result.Failure? ==> r.result.error == ColumnOverflow && r.catalog.products == c.products)
  {
    match FindOne(c, id)
    case Failure(e) => Step(c, Failure(e))
    case Success(p) =>
      var c1 := if PatchSetsImage(patch) then Release(c, p.imageUrl) else c;
      Save(c1, Apply(p, patch))
  }

  /**
   * The old file is deleted only when both the patch's and the stored image
   * URL are non-empty, and then it is the last segment of the stored one.
   */
  lemma UpdateDeletesOnlyReplacedImage(c: Catalog, id: int, patch: Patch)
    requires Valid(c) && id in c.products
    ensures var prev := c.products[id];
      |Update(c, id, patch).catalog.deleted| > |c.deleted|
      <==> PatchSetsImage(patch) && Truthy(prev.imageUrl) && LastSegment(prev.imageUrl.value) != ""
    ensures var prev := c.products[id];
      PatchSetsImage(patch) && Truthy(prev.imageUrl) && LastSegment(prev.imageUrl.value) != "" ==>
        Update(c, id, patch).catalog.deleted == c.deleted + [LastSegment(prev.imageUrl.value)]
  {
  }

  /**
   * Patching a product with the image URL it already has deletes that file
   * while the row keeps pointing at it.
   */
  lemma UpdateWithSameImageDeletesIt(c: Catalog, id: int, filename: string)
    requires Valid(c) && id in c.products
    requires filename != "" && '/' !in filename
    requires c.products[id].imageUrl == Some(GetFileUrl(filename))
    ensures var r := Update(c, id, EmptyPatch.(imageUrl := Some(Some(GetFileUrl(filename)))));
      && r.result.Success?
      && r.result.value.imageUrl == Some(GetFileUrl(filename))
      && r.catalog.deleted == c.deleted + [filename]
  {
    ReleasesUploadedFile(filename);
    ApplyLaws(c.products[id], EmptyPatch);
  }

  // --------------------------------------------------------- remove

  /** `remove`: find, release the image, delete the row. */
  function Remove(c: Catalog, id: int): (r: Step<()>)
    requires Valid(c)
    ensures Valid(r.catalog)
    ensures id !in c.products ==> r == Step(c, Failure(ProductNotFound(id)))
    ensures id in c.products ==>
      && r.result.Success?
      && r.catalog.deleted == c.deleted + Released(c.products[id].imageUrl)
      && id !in r.catalog.products
      && (forall k :: k != id ==> (k in r.catalog.products <==> k in c.products))
      && (forall k :: k in r.catalog.products ==> r.catalog.products[k] == c.products[k])
      && r.catalog.nextId == c.nextId
  {
    match FindOne(c, id)
    case Failure(e) => Step(c, Failure(e))
    case Success(p) =>
      var c1 := Release(c, p.imageUrl);
      Step(c1.(products := c1.products - {id}), Success(()))
  }

  /** `softRemove`: find, clear `isActive`, save; the row and its file stay. */
  function SoftRemove(c: Catalog, id: int): (r: Step<Product>)
    requires Valid(c)
    ensures Valid(r.catalog)
    ensures id !in c.products ==> r == Step(c, Failure(ProductNotFound(id)))
    ensures id in c.products ==>
      && r.result == Success(c.products[id].(isActive := false))
      && r.catalog == c.(products := c.products[id := c.products[id].(isActive := false)])
  {
    match FindOne(c, id)
    case Failure(e) => Step(c, Failure(e))
    case Success(p) => Save(c, p.(isActive := false))
  }

  // ---------------------------------------------------------- updateImage

  /**
   * `updateImage`: find, release the old image whenever there is one (even
   * when it is the new URL), set the new URL, save.
   */
  function UpdateImage(c: Catalog, id: int, imageUrl: string): (r: Step<Product>)
    requires Valid(c)
    ensures Valid(r.catalog)
    ensures id !in c.products ==> r == Step(c, Failure(ProductNotFound(id)))
    ensures id in c.products ==>
      var prev := c.products[id];
      && r.result == Success(prev.(imageUrl := Some(imageUrl)))
      && r.catalog.products == c.products[id := prev.(imageUrl := Some(imageUrl))]
      && r.catalog.deleted == c.deleted + Released(prev.imageUrl)
      && r.catalog.nextId == c.nextId
  {
    match FindOne(c, id)
    case Failure(e) => Step(c, Failure(e))
    case Success(p) => Save(Release(c, p.imageUrl), p.(imageUrl := Some(imageUrl)))
  }

  // ------------------------------------------------------------ lemmas

  /** The image `updateImage` sets is the file the next `updateImage` deletes. */
  lemma NextImageReleasesPrevious(c: Catalog, id: int, filename: string, next: string)
    requires Valid(c) && id in c.products
    requires filename != "" && '/' !in filename
    ensures var c1 := UpdateImage(c, id, GetFileUrl(filename)).catalog;
      && c1.products[id].imageUrl == Some(GetFileUrl(filename))
      && UpdateImage(c1, id, next).catalog.deleted == c1.deleted + [filename]
  {
    ReleasesUploadedFile(filename);
  }

  /**
   * Replaying the names `updateImage` hands to `deleteFile` on the upload
   * directory removes the file the product pointed at, and nothing else.
   */
  lemma ReplacedImageFileIsDeleted(cfg: UploadConfig, files: set<string>, c: Catalog, id: int, filename: string, next: string)
    requires Valid(c) && id in c.products
    requires filename != "" && '/' !in filename
    requires c.products[id].imageUrl == Some(GetFileUrl(filename))
    ensures var log := UpdateImage(c, id, next).catalog.deleted;
      |log| >= |c.deleted| && DeleteAll(cfg, files, log[|c.deleted|..]) == files - {FilePath(UploadDir(cfg), filename)}
  {
    ReleasesUploadedFile(filename);
    var log := UpdateImage(c, id, next).catalog.deleted;
    assert log[|c.deleted|..] == [filename];
  }

  /** After `remove`, `findOne` throws NotFound; after `softRemove`, it still returns the row. */
  lemma RemovedIsGoneSoftRemovedIsFound(c: Catalog, id: int)
    requires Valid(c) && id in c.products
    ensures FindOne(Remove(c, id).catalog, id) == Failure(ProductNotFound(id))
    ensures var r := FindOne(SoftRemove(c, id).catalog, id);
      r.Success? && !r.value.isActive && r.value == c.products[id].(isActive := false)
  {
  }

  /** A soft-removed product is never listed again. */
  lemma SoftRemovedIsNotListed(c: Catalog, id: int, q: ProductQuery)
    requires Valid(c) && id in c.products && PagingOk(q)
    ensures var c1 := SoftRemove(c, id).catalog;
      Valid(c1) && FindAll(c1, q).Success? ==>
        forall i :: 0 <= i < |FindAll(c1, q).value.data| ==> FindAll(c1, q).value.data[i].id != id
  {
    var c1 := SoftRemove(c, id).catalog;
    if Valid(c1) && FindAll(c1, q).Success? {
      var data := FindAll(c1, q).value.data;
      forall i | 0 <= i < |data| ensures data[i].id != id {
        assert Stored(c1, data[i]) && data[i].isActive;
      }
    }
  }

  /**
   * The DTO measures a name without its presentation selectors while the
   * column counts every code point: a name of 255 letters and one U+FE0F
   * passes validation and is then refused by the database.
   */
  lemma {:induction false} SelectorNamePassesDtoButNotColumn(c: Catalog, category: Category, now: int)
    requires Valid(c)
    ensures var name := seq(NameColumnLength, _ => 'a') + ['\U{FE0F}'];
      var body := CreateProductBody(Some(Json.Str(name)), Some(Json.Str(CategoryName(category))),
                                    Some(Json.Number(Json.Decimal(0, 0))), None, None, None);
      && ValidateCreate(body).Success?
      && Create(c, ValidateCreate(body).value, now).result == Failure(ColumnOverflow)
  {
    var letters := seq(NameColumnLength, _ => 'a');
    var name := letters + ['\U{FE0F}'];
    assert MeasuredLength(letters) == NameColumnLength;
    assert name[..|name| - 1] == letters;
    assert MeasuredLength(name) == NameColumnLength;
    CategoryNameRoundTrip(category);
  }

  /** A created product is listed when its category is asked for. */
  lemma CreatedIsListedInItsCategory(c: Catalog, np: NewProduct, now: int, order: Option<string>)
    requires Valid(c)
    requires order.None? || order.value in OrderNames
    requires Create(c, np, now).result.Success?
    ensures var r := Create(c, np, now);
      var q := ProductQuery(None, Some(np.category), None, order, None, None);
      var dir := ParseDirection(q.order.GetOr(DefaultOrder)).value;
      multiset(Ordered(Rows(r.catalog), q, dir))[r.result.value] == 1
  {
    var r := Create(c, np, now);
    var q := ProductQuery(None, Some(np.category), None, order, None, None);
    EachMatchOnce(r.catalog, q, ParseDirection(q.order.GetOr(DefaultOrder)).value, r.result.value);
  }
}
