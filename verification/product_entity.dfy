/** The `products` table: the `Product` entity and the `ProductCategory` enum. */
module ProductEntity {
  import opened Wrappers

  datatype Category = Fruta | Verdura | Legume

  /** The enum's string values, as stored and as sent by clients. */
  function CategoryName(c: Category): string {
    match c
    case Fruta => "fruta"
    case Verdura => "verdura"
    case Legume => "legume"
  }

  const CategoryNames: seq<string> := ["fruta", "verdura", "legume"]

  function ParseCategory(s: string): (r: Option<Category>)
    ensures r.Some? <==> s in CategoryNames
    ensures r.Some? ==> CategoryName(r.value) == s
  {
    if s == "fruta" then Some(Fruta)
    else if s == "verdura" then Some(Verdura)
    else if s == "legume" then Some(Legume)
    else None
  }

  lemma CategoryNameRoundTrip(c: Category)
    ensures CategoryName(c) in CategoryNames
    ensures ParseCategory(CategoryName(c)) == Some(c)
  {
  }

  /**
   * One row. `price` is in cents (the column is decimal(10, 2)); `createdAt`
   * is the insertion timestamp. `updatedAt`, maintained by the database, is
   * not part of the model.
   */
  datatype Product = Product(
    id: int,
    name: string,
    category: Category,
    price: int,
    imageUrl: Option<string>,
    description: Option<string>,
    stock: int,
    isActive: bool,
    createdAt: int)

  const NameColumnLength := 255
  const DefaultStock := 0
  const DefaultIsActive := true

  /** decimal(10, 2) holds 10 digits, 2 of them after the point: |price| < 10^10 cents. */
  const PriceBound := 10_000_000_000

  /** The `integer` column is a signed 32-bit integer. */
  const IntegerMin := -0x8000_0000
  const IntegerMax := 0x7fff_ffff

  /** What the columns can store; a save of anything else is refused by the database. */
  predicate FitsColumns(p: Product) {
    && |p.name| <= NameColumnLength
    && -PriceBound < p.price < PriceBound
    && IntegerMin <= p.stock <= IntegerMax
  }
}
