/**
 * `CreateProductDto` and `QueryProductDto`: what the validation pipe lets
 * through to the product service, and the typed values it hands over.
 */
module ProductDtos {
  import opened Wrappers
  import opened Json
  import opened Constraints
  import opened ProductEntity
  import opened Errors

  /** A create request body, one field per DTO property. */
  datatype CreateProductBody = CreateProductBody(
    name: Field,
    category: Field,
    price: Field,
    imageUrl: Field,
    description: Field,
    stock: Field)

  /**
   * A validated create request; `price` in cents. `stock` keeps the three
   * shapes the property can take: absent (`None`), null (`Some(None)`) or a
   * number.
   */
  datatype NewProduct = NewProduct(
    name: string,
    category: Category,
    price: int,
    imageUrl: Option<string>,
    description: Option<string>,
    stock: Option<Option<int>>)

  const DescriptionMaxLength := 1000

  predicate NameOk(v: Field) {
    IsString(v) && IsNotEmpty(v) && MaxLength(v, NameColumnLength)
  }

  predicate CategoryOk(v: Field) {
    IsIn(v, CategoryNames) && IsNotEmpty(v)
  }

  predicate PriceOk(v: Field) {
    IsNumber(v, 2) && IsNotEmpty(v) && MinZero(v)
  }

  predicate ImageUrlOk(v: Field) {
    Skipped(v) || IsString(v)
  }

  predicate DescriptionOk(v: Field) {
    Skipped(v) || (IsString(v) && MaxLength(v, DescriptionMaxLength))
  }

  predicate StockOk(v: Field) {
    Skipped(v) || (IsInt(v) && MinZero(v))
  }

  /** The names of the properties that fail their constraints, in declaration order. */
  function CreateViolations(b: CreateProductBody): (fields: seq<string>)
    ensures fields == [] <==>
      NameOk(b.name) && CategoryOk(b.category) && PriceOk(b.price)
      && ImageUrlOk(b.imageUrl) && DescriptionOk(b.description) && StockOk(b.stock)
    ensures "price" in fields <==> !PriceOk(b.price)
    ensures "stock" in fields <==> !StockOk(b.stock)
  {
    (if NameOk(b.name) then [] else ["name"])
    + (if CategoryOk(b.category) then [] else ["category"])
    + (if PriceOk(b.price) then [] else ["price"])
    + (if ImageUrlOk(b.imageUrl) then [] else ["imageUrl"])
    + (if DescriptionOk(b.description) then [] else ["description"])
    + (if StockOk(b.stock) then [] else ["stock"])
  }

  /**
   * The validation pipe on a create body: a 400 listing every violated
   * property, or the typed product description carrying the body's values.
   */
  function ValidateCreate(b: CreateProductBody): (r: Result<NewProduct, Error>)
    ensures r.Failure? <==> CreateViolations(b) != []
    ensures r.Failure? ==> r.error == Error.Invalid(CreateViolations(b))
    ensures r.Success? ==>
      && b.name == Some(Str(r.value.name))
      && r.value.name != "" && MeasuredLength(r.value.name) <= NameColumnLength
      && b.category == Some(Str(CategoryName(r.value.category)))
      && r.value.price >= 0
      && r.value.price * Pow10(b.price.value.n.exponent) == b.price.value.n.digits * 100
      && r.value.imageUrl == OptionalString(b.imageUrl)
      && r.value.description == OptionalString(b.description)
      && (r.value.description.Some? ==> MeasuredLength(r.value.description.value) <= DescriptionMaxLength)
      && (r.value.stock.None? <==> b.stock.None?)
      && (r.value.stock == Some(None) <==> b.stock == Some(Null))
      && (r.value.stock.Some? && r.value.stock.value.Some? ==>
            && r.value.stock.value.value >= 0
            && r.value.stock.value.value * Pow10(b.stock.value.n.exponent) == b.stock.value.n.digits)
  {
    if CreateViolations(b) != [] then Failure(Error.Invalid(CreateViolations(b)))
    else
      var stock :=
        if b.stock.None? then None
        else if b.stock.value.Null? then Some(None)
        else
          var d := b.stock.value.n;
          Some(Some(d.digits / Pow10(d.exponent)));
      Success(NewProduct(
        b.name.value.s,
        ParseCategory(b.category.value.s).value,
        b.price.value.n.Scaled(2),
        OptionalString(b.imageUrl),
        OptionalString(b.description),
        stock))
  }

  /** What a create body can carry: the constraints of `CreateProductDto`, on typed values. */
  predicate Acceptable(np: NewProduct) {
    && np.name != "" && MeasuredLength(np.name) <= NameColumnLength
    && np.price >= 0
    && (np.description.Some? ==> MeasuredLength(np.description.value) <= DescriptionMaxLength)
    && (np.stock.Some? && np.stock.value.Some? ==> np.stock.value.value >= 0)
  }

  /** A body a client would send for `np`: the price as a two-place decimal, the stock as a whole number. */
  function BodyOf(np: NewProduct): CreateProductBody {
    CreateProductBody(
      Some(Str(np.name)),
      Some(Str(CategoryName(np.category))),
      Some(Number(Decimal(np.price, 2))),
      StringField(np.imageUrl),
      StringField(np.description),
      match np.stock
      case None => None
      case Some(None) => Some(Null)
      case Some(Some(n)) => Some(Number(Decimal(n, 0))))
  }

  /** Everything validation hands on is acceptable. */
  lemma ValidatedIsAcceptable(b: CreateProductBody)
    requires ValidateCreate(b).Success?
    ensures Acceptable(ValidateCreate(b).value)
  {
  }

  /** Every acceptable product description survives the trip through a body and the validation pipe. */
  lemma {:induction false} CreateRoundTrip(np: NewProduct)
    requires Acceptable(np)
    ensures ValidateCreate(BodyOf(np)) == Success(np)
  {
    var b := BodyOf(np);
    var price := Decimal(np.price, 2);
    assert Pow10(2) == 100;
    assert price.HasAtMostPlaces(2) by {
      assert np.price * Pow10(2) % Pow10(2) == 0;
    }
    assert price.Scaled(2) == np.price by {
      assert price.Scaled(2) * 100 == np.price * 100;
    }
    assert NameOk(b.name) && PriceOk(b.price);
    CategoryNameRoundTrip(np.category);
    assert CreateViolations(b) == [];
  }
  /** The columns `findAll` can sort by. */
  datatype SortKey = ByName | ByPrice | ByCreatedAt

  const SortKeyNames: seq<string> := ["name", "price", "createdAt"]
  const OrderNames: seq<string> := ["ASC", "DESC", "asc", "desc"]

  /** The query value that names a sort column. */
  function SortKeyName(k: SortKey): (s: string)
    ensures s in SortKeyNames
  {
    match k
    case ByName => "name"
    case ByPrice => "price"
    case ByCreatedAt => "createdAt"
  }

  function ParseSortKey(s: string): (r: Option<SortKey>)
    ensures r.Some? <==> s in SortKeyNames
    ensures r.Some? ==> SortKeyName(r.value) == s
  {
    if s == "name" then Some(ByName)
    else if s == "price" then Some(ByPrice)
    else if s == "createdAt" then Some(ByCreatedAt)
    else None
  }

  /**
   * The query string of `GET /products`. Query values arrive as strings;
   * `page` and `limit` are shown after their conversion to numbers.
   */
  datatype QueryParams = QueryParams(
    search: Option<string>,
    category: Option<string>,
    sortBy: Option<string>,
    order: Option<string>,
    page: Option<int>,
    limit: Option<int>)

  /** A validated query; `order` is passed on as written. */
  datatype ProductQuery = ProductQuery(
    search: Option<string>,
    category: Option<Category>,
    sortBy: Option<SortKey>,
    order: Option<string>,
    page: Option<int>,
    limit: Option<int>)

  function QueryViolations(q: QueryParams): (fields: seq<string>)
    ensures fields == [] <==>
      && (q.category.Some? ==> q.category.value in CategoryNames)
      && (q.sortBy.Some? ==> q.sortBy.value in SortKeyNames)
      && (q.order.Some? ==> q.order.value in OrderNames)
  {
    (if q.category.None? || q.category.value in CategoryNames then [] else ["category"])
    + (if q.sortBy.None? || q.sortBy.value in SortKeyNames then [] else ["sortBy"])
    + (if q.order.None? || q.order.value in OrderNames then [] else ["order"])
  }

  /** The validation pipe on a listing query. `page` and `limit` carry no constraint. */
  function ValidateQuery(q: QueryParams): (r: Result<ProductQuery, Error>)
    ensures r.Success? <==> QueryViolations(q) == []
    ensures r.Failure? ==> r.error == Error.Invalid(QueryViolations(q))
    ensures r.Success? ==>
      && r.value.search == q.search
      && r.value.order == q.order
      && r.value.page == q.page
      && r.value.limit == q.limit
      && (r.value.category.None? <==> q.category.None?)
      && (r.value.category.Some? ==> Some(CategoryName(r.value.category.value)) == q.category)
      && (r.value.sortBy.None? <==> q.sortBy.None?)
      && (r.value.sortBy.Some? ==> Some(SortKeyName(r.value.sortBy.value)) == q.sortBy)
  {
    if QueryViolations(q) != [] then Failure(Error.Invalid(QueryViolations(q)))
    else
      Success(ProductQuery(
        q.search,
        if q.category.None? then None else ParseCategory(q.category.value),
        if q.sortBy.None? then None else ParseSortKey(q.sortBy.value),
        q.order,
        q.page,
        q.limit))
  }

  /** Each sort column is read back from its name. */
  lemma SortKeyNameRoundTrip(k: SortKey)
    ensures ParseSortKey(SortKeyName(k)) == Some(k)
  {
  }

  /** The query string that asks for `pq`. */
  function ParamsOf(pq: ProductQuery): QueryParams {
    QueryParams(
      pq.search,
      if pq.category.None? then None else Some(CategoryName(pq.category.value)),
      if pq.sortBy.None? then None else Some(SortKeyName(pq.sortBy.value)),
      pq.order,
      pq.page,
      pq.limit)
  }

  /** A query that passes validation is exactly the query string of what validation hands on. */
  lemma ValidatedQueryRoundTrip(q: QueryParams)
    requires ValidateQuery(q).Success?
    ensures ParamsOf(ValidateQuery(q).value) == q
  {
  }

  /** Every typed query whose order is one the DTO allows survives the trip through a query string. */
  lemma {:induction false} QueryRoundTrip(pq: ProductQuery)
    requires pq.order.None? || pq.order.value in OrderNames
    ensures ValidateQuery(ParamsOf(pq)) == Success(pq)
  {
    if pq.category.Some? {
      CategoryNameRoundTrip(pq.category.value);
    }
    if pq.sortBy.Some? {
      SortKeyNameRoundTrip(pq.sortBy.value);
    }
  }

  /** Paging values carry no constraint: any page and limit pass validation. */
  lemma {:induction false} PagingIsUnconstrained(q: QueryParams, page: Option<int>, limit: Option<int>)
    ensures ValidateQuery(q).Success? <==> ValidateQuery(q.(page := page, limit := limit)).Success?
  {
    assert QueryViolations(q) == QueryViolations(q.(page := page, limit := limit));
  }
}
