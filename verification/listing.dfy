/**
 * The listing half of `ProductsService.findAll`: the active/search/category
 * filter, the sort, and skip/take pagination with its `meta` block, over the
 * table's rows.
 */
module Listing {
  import opened Wrappers
  import opened Text
  import opened Errors
  import opened ProductEntity
  import opened ProductDtos

  // ---------------------------------------------------------------- filter

  /** `name ILIKE '%search%'`, read as a case-insensitive substring test. */
  predicate NameMatches(name: string, search: string) {
    Contains(Lower(name), Lower(search))
  }

  /** The search is applied only when it is a non-empty string (`if (search)`). */
  predicate SearchApplies(q: ProductQuery) {
    q.search.Some? && q.search.value != ""
  }

  /** The `where` clause: active, and the search and category conditions when given. */
  predicate Matches(p: Product, q: ProductQuery) {
    && p.isActive
    && (SearchApplies(q) ==> NameMatches(p.name, q.search.value))
    && (q.category.Some? ==> p.category == q.category.value)
  }

  function Filter(rows: seq<Product>, q: ProductQuery): (r: seq<Product>)
    ensures forall i :: 0 <= i < |r| ==> Matches(r[i], q)
    ensures forall p :: multiset(r)[p] == if Matches(p, q) then multiset(rows)[p] else 0
    ensures |r| <= |rows|
  {
    if rows == [] then []
    else
      var rest := Filter(rows[1..], q);
      assert rows == [rows[0]] + rows[1..];
      if Matches(rows[0], q) then [rows[0]] + rest else rest
  }

  // ------------------------------------------------------------------ sort

  datatype Direction = Asc | Desc

  /**
   * The direction the query builder is given, as written: `order` goes to
   * `orderBy` unchanged, and the query builder refuses anything but "ASC"
   * and "DESC".
   */
  function OrderByAsWritten(order: string): (r: Result<Direction, Error>)
    ensures r.Success? <==> order == "ASC" || order == "DESC"
    ensures r.Success? ==> (r.value == Asc <==> order == "ASC")
  {
    if order == "ASC" then Success(Asc)
    else if order == "DESC" then Success(Desc)
    else Failure(BadSortOrder)
  }

  /** The corrected direction: every spelling the query DTO admits is honoured. */
  function ParseDirection(order: string): (r: Result<Direction, Error>)
    ensures r.Success? <==> order in OrderNames
    ensures r.Success? ==> (r.value == Asc <==> Lower(order) == "asc")
  {
    if order == "ASC" || order == "asc" then Success(Asc)
    else if order == "DESC" || order == "desc" then Success(Desc)
    else Failure(BadSortOrder)
  }

  /** The query DTO admits "asc", which the query builder as written refuses. */
  lemma LowercaseOrderRefused()
    ensures "asc" in OrderNames && OrderByAsWritten("asc").Failure?
    ensures ParseDirection("asc") == Success(Asc)
  {
    assert Lower("asc") == "asc";
  }

  /** The corrected direction agrees with the query builder wherever the latter succeeds. */
  lemma {:induction false} ParseDirectionExtendsOrderBy(order: string)
    ensures OrderByAsWritten(order).Success? ==> ParseDirection(order) == OrderByAsWritten(order)
    ensures order in OrderNames ==> ParseDirection(order).Success?
  {
    if order == "DESC" {
      assert Lower(order) == "desc";
    }
  }

  /** Code-point order on strings; the database's collation is not modelled. */
  predicate LexLe(a: string, b: string) {
    |a| == 0 || (|b| > 0 && (a[0] < b[0] || (a[0] == b[0] && LexLe(a[1..], b[1..]))))
  }

  lemma {:induction false} LexLeTotal(a: string, b: string)
    ensures LexLe(a, b) || LexLe(b, a)
  {
    if |a| > 0 && |b| > 0 && a[0] == b[0] {
      LexLeTotal(a[1..], b[1..]);
    }
  }

  lemma {:induction false} LexLeTransitive(a: string, b: string, c: string)
    requires LexLe(a, b) && LexLe(b, c)
    ensures LexLe(a, c)
  {
    if |a| > 0 && |b| > 0 && |c| > 0 && a[0] == b[0] && b[0] == c[0] {
      LexLeTransitive(a[1..], b[1..], c[1..]);
    }
  }

  predicate KeyLe(a: Product, b: Product, key: SortKey) {
    match key
    case ByName => LexLe(a.name, b.name)
    case ByPrice => a.price <= b.price
    case ByCreatedAt => a.createdAt <= b.createdAt
  }

  /** `a` may be listed before `b` under `ORDER BY key dir`. */
  predicate InOrder(a: Product, b: Product, key: SortKey, dir: Direction) {
    if dir == Asc then KeyLe(a, b, key) else KeyLe(b, a, key)
  }

  lemma InOrderTotal(a: Product, b: Product, key: SortKey, dir: Direction)
    ensures InOrder(a, b, key, dir) || InOrder(b, a, key, dir)
  {
    if key == ByName {
      LexLeTotal(a.name, b.name);
    }
  }

  lemma InOrderTransitive(a: Product, b: Product, c: Product, key: SortKey, dir: Direction)
    requires InOrder(a, b, key, dir) && InOrder(b, c, key, dir)
    ensures InOrder(a, c, key, dir)
  {
    if key == ByName {
      if dir == Asc {
        LexLeTransitive(a.name, b.name, c.name);
      } else {
        LexLeTransitive(c.name, b.name, a.name);
      }
    }
  }

  /** Sorted by `key` in direction `dir`; the order among equal keys is left open. */
  predicate SortedBy(xs: seq<Product>, key: SortKey, dir: Direction) {
    forall i, j :: 0 <= i < j < |xs| ==> InOrder(xs[i], xs[j], key, dir)
  }

  /** `a` and `b` compare equal under `key`, so `ORDER BY` may list them either way round. */
  predicate Tie(a: Product, b: Product, key: SortKey) {
    KeyLe(a, b, key) && KeyLe(b, a, key)
  }

  /** No two different rows among `rows` tie under `key`. */
  predicate NoTies(rows: multiset<Product>, key: SortKey) {
    forall a, b :: a in rows && b in rows && a != b ==> !Tie(a, b, key)
  }

  lemma {:induction false} LexLeReflexive(a: string)
    ensures LexLe(a, a)
  {
    if |a| > 0 {
      LexLeReflexive(a[1..]);
    }
  }

  lemma InOrderReflexive(a: Product, key: SortKey, dir: Direction)
    ensures InOrder(a, a, key, dir)
  {
    LexLeReflexive(a.name);
  }

  /** Dropping the head of a sorted list leaves a sorted list of the other rows. */
  lemma SortedTail(xs: seq<Product>, key: SortKey, dir: Direction)
    requires xs != [] && SortedBy(xs, key, dir)
    ensures SortedBy(xs[1..], key, dir)
    ensures multiset(xs[1..]) == multiset(xs) - multiset{xs[0]}
  {
    assert xs == [xs[0]] + xs[1..];
    var xt := xs[1..];
    forall i, j | 0 <= i < j < |xt| ensures InOrder(xt[i], xt[j], key, dir) {
      assert xt[i] == xs[i + 1] && xt[j] == xs[j + 1];
    }
  }

  /**
   * Without ties there is one sorted arrangement of a collection of rows:
   * any two sorted lists holding the same rows are equal.
   */
  lemma {:induction false} SortedWithoutTiesIsUnique(xs: seq<Product>, ys: seq<Product>, key: SortKey, dir: Direction)
    requires SortedBy(xs, key, dir) && SortedBy(ys, key, dir)
    requires multiset(xs) == multiset(ys) && NoTies(multiset(xs), key)
    ensures xs == ys
  {
    assert |xs| == |ys| by {
      assert |multiset(xs)| == |multiset(ys)|;
    }
    if xs != [] {
      var a, b := xs[0], ys[0];
      assert b in multiset(xs) && a in multiset(ys);
      var k :| 0 <= k < |xs| && xs[k] == b;
      var m :| 0 <= m < |ys| && ys[m] == a;
      InOrderReflexive(a, key, dir);
      if k > 0 {
        assert InOrder(xs[0], xs[k], key, dir);
      }
      if m > 0 {
        assert InOrder(ys[0], ys[m], key, dir);
      }
      assert InOrder(a, b, key, dir) && InOrder(b, a, key, dir);
      assert Tie(a, b, key);
      assert a == b;
      var xt, yt := xs[1..], ys[1..];
      SortedTail(xs, key, dir);
      SortedTail(ys, key, dir);
      assert multiset(xt) == multiset(yt);
      assert multiset(xt) <= multiset(xs);
      SortedWithoutTiesIsUnique(xt, yt, key, dir);
    }
  }

  function Insert(x: Product, xs: seq<Product>, key: SortKey, dir: Direction): (r: seq<Product>)
    requires SortedBy(xs, key, dir)
    ensures SortedBy(r, key, dir)
    ensures multiset(r) == multiset(xs) + multiset{x}
    ensures |r| == |xs| + 1
  {
    if xs == [] then [x]
    else if InOrder(x, xs[0], key, dir) then
      forall j | 0 <= j < |xs| ensures InOrder(x, xs[j], key, dir) {
        if j > 0 { InOrderTransitive(x, xs[0], xs[j], key, dir); }
      }
      [x] + xs
    else
      InOrderTotal(x, xs[0], key, dir);
      var rest := Insert(x, xs[1..], key, dir);
      assert xs == [xs[0]] + xs[1..];
      forall j | 0 <= j < |rest| ensures InOrder(xs[0], rest[j], key, dir) {
        assert rest[j] in multiset(rest);
        if rest[j] != x {
          assert rest[j] in multiset(xs[1..]);
          var k :| 0 <= k < |xs[1..]| && xs[1..][k] == rest[j];
          assert InOrder(xs[0], xs[k + 1], key, dir);
        }
      }
      [xs[0]] + rest
  }

  /** The sort: insertion into a sorted list, one row at a time. */
  function Sort(xs: seq<Product>, key: SortKey, dir: Direction): (r: seq<Product>)
    ensures SortedBy(r, key, dir)
    ensures multiset(r) == multiset(xs)
    ensures |r| == |xs|
  {
    if xs == [] then []
    else
      assert xs == [xs[0]] + xs[1..];
      Insert(xs[0], Sort(xs[1..], key, dir), key, dir)
  }

  // ------------------------------------------------------------ pagination

  function Min(a: int, b: int): int { if a <= b then a else b }

  /** `Math.ceil(total / limit)`. */
  function TotalPages(total: nat, limit: int): (r: nat)
    requires limit >= 1
    ensures total <= r * limit
    ensures r > 0 ==> (r - 1) * limit < total
    ensures r == 0 <==> total == 0
  {
    (total + limit - 1) / limit
  }

  /** `skip((page - 1) * limit).take(limit)`. */
  function PageOf<T>(xs: seq<T>, page: int, limit: int): (r: seq<T>)
    requires page >= 1 && limit >= 1
    ensures |r| <= limit
    ensures forall i :: 0 <= i < |r| ==> (page - 1) * limit + i < |xs| && r[i] == xs[(page - 1) * limit + i]
    ensures (page - 1) * limit + limit <= |xs| ==> |r| == limit
    ensures (page - 1) * limit < |xs| ==> |r| > 0
  {
    var start := (page - 1) * limit;
    xs[Min(start, |xs|)..Min(start + limit, |xs|)]
  }

  /** Pages 1 to n, concatenated. */
  function Pages<T>(xs: seq<T>, limit: int, n: nat): seq<T>
    requires limit >= 1
  {
    if n == 0 then [] else Pages(xs, limit, n - 1) + PageOf(xs, n, limit)
  }

  lemma {:induction false} PagesArePrefix<T>(xs: seq<T>, limit: int, n: nat)
    requires limit >= 1
    ensures Pages(xs, limit, n) == xs[..Min(n * limit, |xs|)]
  {
    if n > 0 {
      PagesArePrefix(xs, limit, n - 1);
      var lo := Min((n - 1) * limit, |xs|);
      var hi := Min((n - 1) * limit + limit, |xs|);
      assert n * limit == (n - 1) * limit + limit;
      assert xs[..lo] + xs[lo..hi] == xs[..hi];
    }
  }

  /** Pages 1..totalPages, concatenated, are the whole list: nothing lost, nothing repeated. */
  lemma {:induction false} AllPagesReproduceList<T>(xs: seq<T>, limit: int)
    requires limit >= 1
    ensures Pages(xs, limit, TotalPages(|xs|, limit)) == xs
  {
    var n := TotalPages(|xs|, limit);
    PagesArePrefix(xs, limit, n);
    assert xs[..|xs|] == xs;
  }

  /** A page past the last one is empty. */
  lemma PagePastEndIsEmpty<T>(xs: seq<T>, page: int, limit: int)
    requires limit >= 1 && page > TotalPages(|xs|, limit)
    ensures PageOf(xs, page, limit) == []
  {
    assert (page - 1) * limit >= TotalPages(|xs|, limit) * limit;
  }

  // --------------------------------------------------------------- findAll

  datatype Meta = Meta(total: nat, page: int, limit: int, totalPages: nat)
  datatype Listed = Listed(data: seq<Product>, meta: Meta)

  const DefaultSortBy := ByCreatedAt
  const DefaultOrder := "DESC"
  const DefaultPage := 1
  const DefaultLimit := 10

  /** Paging the source cannot handle: the skip would be negative or the take empty. */
  predicate PagingOk(q: ProductQuery) {
    q.page.GetOr(DefaultPage) >= 1 && q.limit.GetOr(DefaultLimit) >= 1
  }

  /** The filtered rows in the order the query asks for, before paging. */
  function Ordered(rows: seq<Product>, q: ProductQuery, dir: Direction): (r: seq<Product>)
    ensures SortedBy(r, q.sortBy.GetOr(DefaultSortBy), dir)
    ensures forall p :: multiset(r)[p] == if Matches(p, q) then multiset(rows)[p] else 0
  {
    Sort(Filter(rows, q), q.sortBy.GetOr(DefaultSortBy), dir)
  }

  /** Every ordered row is a matching row of the table. */
  lemma OrderedRowsMatch(rows: seq<Product>, q: ProductQuery, dir: Direction)
    ensures var all := Ordered(rows, q, dir);
      forall i :: 0 <= i < |all| ==> Matches(all[i], q) && all[i] in rows
  {
    var all := Ordered(rows, q, dir);
    forall i | 0 <= i < |all| ensures Matches(all[i], q) && all[i] in rows {
      assert all[i] in multiset(all);
    }
  }

  /** A page of a sorted list of matching rows is again one. */
  lemma PageKeepsOrder(all: seq<Product>, page: int, limit: int, rows: seq<Product>, q: ProductQuery, key: SortKey, dir: Direction)
    requires page >= 1 && limit >= 1
    requires SortedBy(all, key, dir)
    requires forall i :: 0 <= i < |all| ==> Matches(all[i], q) && all[i] in rows
    ensures var data := PageOf(all, page, limit);
      && (forall i :: 0 <= i < |data| ==> Matches(data[i], q) && data[i] in rows)
      && SortedBy(data, key, dir)
  {
    var data := PageOf(all, page, limit);
    var start := (page - 1) * limit;
    forall i, j | 0 <= i < j < |data| ensures InOrder(data[i], data[j], key, dir) {
      assert data[i] == all[start + i] && data[j] == all[start + j];
    }
  }

  /** A page of the ordered rows keeps their order, and holds only matching rows of the table. */
  lemma PageOfOrdered(rows: seq<Product>, q: ProductQuery, dir: Direction, page: int, limit: int)
    requires page >= 1 && limit >= 1
    ensures var data := PageOf(Ordered(rows, q, dir), page, limit);
      && (forall i :: 0 <= i < |data| ==> Matches(data[i], q) && data[i] in rows)
      && SortedBy(data, q.sortBy.GetOr(DefaultSortBy), dir)
  {
    OrderedRowsMatch(rows, q, dir);
    PageKeepsOrder(Ordered(rows, q, dir), page, limit, rows, q, q.sortBy.GetOr(DefaultSortBy), dir);
  }

  /**
   * `findAll` over the table's rows: defaults for the absent fields, then
   * filter, sort, count and page.
   */
  function List(rows: seq<Product>, q: ProductQuery): (r: Result<Listed, Error>)
    requires PagingOk(q)
    ensures r.Failure? <==> q.order.Some? && q.order.value !in OrderNames
    ensures r.Success? ==>
      var page := q.page.GetOr(DefaultPage);
      var limit := q.limit.GetOr(DefaultLimit);
      var dir := ParseDirection(q.order.GetOr(DefaultOrder)).value;
      && (forall i :: 0 <= i < |r.value.data| ==> Matches(r.value.data[i], q) && r.value.data[i] in rows)
      && SortedBy(r.value.data, q.sortBy.GetOr(DefaultSortBy), dir)
      && |r.value.data| <= limit
      && r.value.meta == Meta(|Filter(rows, q)|, page, limit, TotalPages(|Filter(rows, q)|, limit))
      && r.value.data == PageOf(Ordered(rows, q, dir), page, limit)
  {
    match ParseDirection(q.order.GetOr(DefaultOrder))
    case Failure(e) => Failure(e)
    case Success(dir) =>
      var page := q.page.GetOr(DefaultPage);
      var limit := q.limit.GetOr(DefaultLimit);
      PageOfOrdered(rows, q, dir, page, limit);
      var total := |Filter(rows, q)|;
      Success(Listed(PageOf(Ordered(rows, q, dir), page, limit), Meta(total, page, limit, TotalPages(total, limit))))
  }
}
