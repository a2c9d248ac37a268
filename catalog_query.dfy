/** The query logic of app/api/products_endpoints.py: pagination parameters, the choice of
    sort column and direction, the category checks and filters of the product listing, the
    text search with its ranking, and the stock statistics. The database is PostgreSQL; a
    query is modelled as a filter over the `products` table in table order. */
module CatalogQuery {
  import opened Wrappers
  import opened Ids
  import opened Text
  import opened SqlLike
  import opened ProductModel

  // ----- pagination -----

  /** `validate_pagination_params`. */
  function ValidatePagination(page: int, perPage: int): (r: (int, int))
    ensures r.0 >= 1 && 1 <= r.1 <= 100
    ensures page >= 1 ==> r.0 == page
    ensures 1 <= perPage <= 100 ==> r.1 == perPage
    ensures !(1 <= perPage <= 100) ==> r.1 == 10
  {
    (if page < 1 then 1 else page, if perPage < 1 || perPage > 100 then 10 else perPage)
  }

  /** Sanitising is idempotent, and it changes nothing exactly when both values are already
      in range. */
  lemma PaginationIdempotent(page: int, perPage: int)
    ensures var r := ValidatePagination(page, perPage); ValidatePagination(r.0, r.1) == r
    ensures ValidatePagination(page, perPage) == (page, perPage) <==> page >= 1 && 1 <= perPage <= 100
  {
  }

  // ----- ordering -----

  datatype SortColumn = Name | Price | CreatedAt

  /** The `sort_by` choice of `get_products` and `get_products_by_category`: any value other
      than 'name' or 'price' (the default is 'created_at') sorts by creation time. */
  function SortColumnOf(sortBy: string): (c: SortColumn)
    ensures c == Name <==> sortBy == "name"
    ensures c == Price <==> sortBy == "price"
    ensures c == CreatedAt <==> sortBy != "name" && sortBy != "price"
  {
    if sortBy == "name" then Name else if sortBy == "price" then Price else CreatedAt
  }

  /** The `sort_order` choice: ascending only for 'asc' (the default is 'desc'). */
  function AscendingOf(sortOrder: string): (asc: bool)
    ensures asc <==> sortOrder == "asc"
  {
    sortOrder == "asc"
  }

  // ----- table filters -----

  /** The rows of a query, in table order. */
  function Select(ps: seq<Product>, keep: Product -> bool): (r: seq<Product>)
    ensures |r| <= |ps|
    ensures forall p :: p in r <==> p in ps && keep(p)
    ensures (forall i :: 0 <= i < |ps| ==> !keep(ps[i])) ==> r == []
  {
    if ps == [] then []
    else (if keep(ps[0]) then [ps[0]] else []) + Select(ps[1..], keep)
  }

  /** The number of rows a `count()` query finds. */
  function Count(ps: seq<Product>, keep: Product -> bool): (n: nat)
    ensures n <= |ps|
  {
    if ps == [] then 0 else (if keep(ps[0]) then 1 else 0) + Count(ps[1..], keep)
  }

  /** A `count()` counts exactly the rows the same filter selects. */
  lemma {:induction false} CountIsSelected(ps: seq<Product>, keep: Product -> bool)
    ensures Count(ps, keep) == |Select(ps, keep)|
  {
    if ps != [] {
      CountIsSelected(ps[1..], keep);
    }
  }

  /** Two disjoint conditions that each imply a third count no more rows together than it. */
  lemma {:induction false} CountDisjoint(ps: seq<Product>, f: Product -> bool, g: Product -> bool, h: Product -> bool)
    requires forall p :: f(p) ==> h(p)
    requires forall p :: g(p) ==> h(p)
    requires forall p :: !(f(p) && g(p))
    ensures Count(ps, f) + Count(ps, g) <= Count(ps, h)
  {
    if ps != [] {
      CountDisjoint(ps[1..], f, g, h);
    }
  }

  // ----- stats -----

  predicate Active(p: Product) { p.isActive }
  predicate ActiveFeatured(p: Product) { p.isActive && p.isFeatured }
  predicate OutOfStock(p: Product) { p.isActive && p.stockQuantity == 0 }
  predicate LowStock(p: Product) { p.isActive && 0 < p.stockQuantity <= p.lowStockThreshold }

  datatype Stats = Stats(total: nat, featured: nat, outOfStock: nat, lowStock: nat)

  /** The counts of `get_products_stats`: out-of-stock and low-stock products are disjoint
      classes of the active ones, and featured products are among the active ones. */
  function ProductStats(ps: seq<Product>): (s: Stats)
    ensures s.outOfStock + s.lowStock <= s.total
    ensures s.featured <= s.total
    ensures s.total <= |ps|
    ensures s.total == Count(ps, Active) && s.featured == Count(ps, ActiveFeatured)
    ensures s.outOfStock == Count(ps, OutOfStock) && s.lowStock == Count(ps, LowStock)
  {
    CountDisjoint(ps, OutOfStock, LowStock, Active);
    CountDisjoint(ps, ActiveFeatured, (p: Product) => false, Active);
    Stats(Count(ps, Active), Count(ps, ActiveFeatured), Count(ps, OutOfStock), Count(ps, LowStock))
  }

  // ----- search -----

  /** The pattern `f"%{term}%"`; the term's own `%`, `_` and backslashes are not escaped. */
  function Pattern(term: string): string {
    "%" + term + "%"
  }

  /** `column.ilike(pattern)` on a nullable column: NULL never matches. */
  predicate FieldMatches(field: Option<string>, term: string) {
    field.Some? && ILike(field.value, Pattern(term))
  }

  /** The search condition of `get_products` and `search_products`. */
  predicate MatchesSearch(p: Product, term: string) {
    ILike(p.name, Pattern(term)) || FieldMatches(p.shortDescription, term)
    || FieldMatches(p.description, term) || ILike(p.sku, Pattern(term))
  }

  /** Lower-casing the pattern lower-cases the term inside it and keeps it free of
      wildcards. */
  lemma LowerPattern(term: string)
    requires forall i :: 0 <= i < |term| ==> !IsWildcard(term[i])
    ensures Lower(Pattern(term)) == "%" + Lower(term) + "%"
    ensures forall i :: 0 <= i < |Lower(term)| ==> !IsWildcard(Lower(term)[i])
  {
    LowerAppend("%", term);
    LowerAppend("%" + term, "%");
    assert Lower("%") == "%";
  }

  /** One field: `ILIKE '%term%'` is a case-insensitive substring test. */
  lemma ILikeContains(field: string, term: string)
    requires forall i :: 0 <= i < |term| ==> !IsWildcard(term[i])
    ensures ILike(field, Pattern(term)) <==> Contains(Lower(field), Lower(term))
  {
    LowerPattern(term);
    LikeContains(Lower(field), Lower(term));
  }

  /** For a term without wildcard characters the search is a case-insensitive substring
      test on name, short description, description and SKU. */
  lemma SearchIsSubstring(p: Product, term: string)
    requires forall i :: 0 <= i < |term| ==> !IsWildcard(term[i])
    ensures MatchesSearch(p, term) <==>
      || Contains(Lower(p.name), Lower(term))
      || (p.shortDescription.Some? && Contains(Lower(p.shortDescription.value), Lower(term)))
      || (p.description.Some? && Contains(Lower(p.description.value), Lower(term)))
      || Contains(Lower(p.sku), Lower(term))
  {
    ILikeContains(p.name, term);
    ILikeContains(p.sku, term);
    if p.shortDescription.Some? { ILikeContains(p.shortDescription.value, term); }
    if p.description.Some? { ILikeContains(p.description.value, term); }
  }

  /** `Product.name.ilike(pattern).desc()` puts name matches first. */
  function NameRank(p: Product, term: string): int {
    if ILike(p.name, Pattern(term)) then 0 else 1
  }

  /** The search order: name matches first, then newest first. */
  predicate RanksBefore(term: string, a: Product, b: Product) {
    NameRank(a, term) < NameRank(b, term) || (NameRank(a, term) == NameRank(b, term) && a.createdAt >= b.createdAt)
  }

  ghost predicate SortedByRank(term: string, s: seq<Product>) {
    forall i, j :: 0 <= i < j < |s| ==> RanksBefore(term, s[i], s[j])
  }

  /** Putting before a ranked list an element that ranks before all of it keeps it ranked. */
  lemma PrependSorted(term: string, y: Product, s: seq<Product>)
    requires SortedByRank(term, s)
    requires forall k :: 0 <= k < |s| ==> RanksBefore(term, y, s[k])
    ensures SortedByRank(term, [y] + s)
  {
    var r := [y] + s;
    forall i, j | 0 <= i < j < |r| ensures RanksBefore(term, r[i], r[j]) {
      assert r[j] == s[j - 1];
      if i > 0 { assert r[i] == s[i - 1]; }
    }
  }

  /** An element ranking before the head of a ranked list ranks before all of it. */
  lemma RanksBeforeHead(term: string, x: Product, s: seq<Product>)
    requires SortedByRank(term, s) && s != [] && RanksBefore(term, x, s[0])
    ensures forall k :: 0 <= k < |s| ==> RanksBefore(term, x, s[k])
  {
    forall k | 0 < k < |s| ensures RanksBefore(term, x, s[k]) {
      assert RanksBefore(term, s[0], s[k]);
    }
  }

  /** An element ranking before every element of `tail` and before `x` ranks before every
      element of a list holding exactly those. */
  lemma RanksBeforeMerged(term: string, h: Product, x: Product, tail: seq<Product>, rest: seq<Product>)
    requires forall k :: 0 <= k < |tail| ==> RanksBefore(term, h, tail[k])
    requires RanksBefore(term, h, x)
    requires multiset(rest) == multiset(tail) + multiset{x}
    ensures forall k :: 0 <= k < |rest| ==> RanksBefore(term, h, rest[k])
  {
    forall k | 0 <= k < |rest| ensures RanksBefore(term, h, rest[k]) {
      assert rest[k] in multiset(rest);
      if rest[k] != x {
        assert rest[k] in multiset(tail);
        var m :| 0 <= m < |tail| && tail[m] == rest[k];
      }
    }
  }

  function InsertByRank(term: string, x: Product, s: seq<Product>): (r: seq<Product>)
    requires SortedByRank(term, s)
    ensures SortedByRank(term, r)
    ensures multiset(r) == multiset(s) + multiset{x}
  {
    if s == [] then [x]
    else if RanksBefore(term, x, s[0]) then
      RanksBeforeHead(term, x, s);
      PrependSorted(term, x, s);
      [x] + s
    else
      var rest := InsertByRank(term, x, s[1..]);
      assert s == [s[0]] + s[1..];
      assert forall k :: 0 <= k < |s[1..]| ==> RanksBefore(term, s[0], s[1..][k]);
      RanksBeforeMerged(term, s[0], x, s[1..], rest);
      PrependSorted(term, s[0], rest);
      [s[0]] + rest
  }

  /** The search results in their order; ties keep table order. */
  function SortByRank(term: string, s: seq<Product>): (r: seq<Product>)
    ensures SortedByRank(term, r)
    ensures multiset(r) == multiset(s)
  {
    if s == [] then []
    else
      assert s == [s[0]] + s[1..];
      InsertByRank(term, s[0], SortByRank(term, s[1..]))
  }

  /** Two lists that are permutations of each other hold the same products. */
  lemma SameMembers(a: seq<Product>, b: seq<Product>)
    requires multiset(a) == multiset(b)
    ensures forall p :: p in a <==> p in b
  {
    forall p ensures p in a <==> p in b {
      assert p in a <==> p in multiset(a);
    }
  }

  datatype SearchResult = SearchError(status: int, error: string) | SearchHits(term: string, products: seq<Product>)

  /** `search_products`: the stripped term must be non-empty; the hits are the active
      products matching it, ranked. */
  function SearchProducts(products: seq<Product>, q: string): (r: SearchResult)
    ensures r.SearchError? <==> Strip(q) == []
    ensures r.SearchError? ==> r == SearchError(400, "Search term is required.")
    ensures r.SearchHits? ==> r.term == Strip(q) && SortedByRank(r.term, r.products)
    ensures r.SearchHits? ==> forall p :: p in r.products <==> p in products && p.isActive && MatchesSearch(p, r.term)
    ensures r.SearchHits? ==> multiset(r.products) == multiset(Select(products, (p: Product) => p.isActive && MatchesSearch(p, Strip(q))))
  {
    var term := Strip(q);
    if term == [] then SearchError(400, "Search term is required.")
    else
      var hits := Select(products, (p: Product) => p.isActive && MatchesSearch(p, term));
      var ranked := SortByRank(term, hits);
      SameMembers(ranked, hits);
      SearchHits(term, ranked)
  }

  /** A term of separator characters alone, such as `q=%1C`, strips to nothing and is
      refused. */
  lemma SeparatorTermRefused(products: seq<Product>)
    ensures SearchProducts(products, "\U{1C}\U{1F}") == SearchError(400, "Search term is required.")
  {
    var q := "\U{1C}\U{1F}";
    assert IsSpace(q[0]) && IsSpace(q[1]);
    assert Strip(q) == [];
  }

  // ----- the product listing -----

  datatype Category = Category(id: CategoryId, slug: string, isActive: bool)

  /** The `category_id` query argument: absent, a UUID, or a non-empty string that is not a
      UUID. An empty `category_id=` has no constructor: it skips the UUID check (`if
      category_id:`) and reaches the filter at app/api/products_endpoints.py:106, where the
      database cannot compare the UUID column with '' and the handler answers 500. */
  datatype IdArg = NoId | Uuid(id: CategoryId) | NotUuid

  /** The query arguments of `get_products`. `isFeatured` and `inStock` hold the raw strings
      that `type=bool` turns into `bool(raw)`. Prices are in currency units, product prices
      in cents. */
  datatype ListQuery = ListQuery(
    categoryId: IdArg,
    categorySlug: Option<string>,
    minPrice: Option<real>,
    maxPrice: Option<real>,
    isFeatured: Option<string>,
    inStock: Option<string>,
    search: string,
    sortBy: string,
    sortOrder: string)

  /** `Category.query.filter_by(slug=slug).first()`; the listing does not ask for an active
      category. */
  function FindCategoryBySlug(categories: seq<Category>, slug: string): (r: Option<Category>)
    ensures r.Some? ==> r.value in categories && r.value.slug == slug
    ensures r.None? ==> forall c :: c in categories ==> c.slug != slug
  {
    if categories == [] then None
    else if categories[0].slug == slug then Some(categories[0])
    else FindCategoryBySlug(categories[1..], slug)
  }

  datatype CategoryChoice = CategoryError(status: int, error: string) | Chosen(id: Option<CategoryId>)

  /** `if category_slug:`: a slug counts only when present and non-empty. */
  predicate SlugGiven(slug: Option<string>) {
    slug.Some? && slug.value != ""
  }

  /** The category checks of `get_products`: a given slug wins and must name a category;
      otherwise a given category_id must be a UUID. */
  function ResolveCategory(categories: seq<Category>, idArg: IdArg, slug: Option<string>): (r: CategoryChoice)
    ensures SlugGiven(slug) && FindCategoryBySlug(categories, slug.value).None? ==> r == CategoryError(404, "Category not found.")
    ensures SlugGiven(slug) && FindCategoryBySlug(categories, slug.value).Some? ==>
      r == Chosen(Some(FindCategoryBySlug(categories, slug.value).value.id))
    ensures !SlugGiven(slug) && idArg.NotUuid? ==> r == CategoryError(400, "Category ID not valid.")
    ensures !SlugGiven(slug) && idArg.NoId? ==> r == Chosen(None)
    ensures !SlugGiven(slug) && idArg.Uuid? ==> r == Chosen(Some(idArg.id))
  {
    if SlugGiven(slug) then
      match FindCategoryBySlug(categories, slug.value)
      case None => CategoryError(404, "Category not found.")
      case Some(c) => Chosen(Some(c.id))
    else
      match idArg
      case NoId => Chosen(None)
      case Uuid(id) => Chosen(Some(id))
      case NotUuid => CategoryError(400, "Category ID not valid.")
  }

  /** An empty `category_slug` is treated as no slug at all, even when some category has the
      empty slug. */
  lemma EmptySlugIgnored(categories: seq<Category>, idArg: IdArg)
    ensures ResolveCategory(categories, idArg, Some("")) == ResolveCategory(categories, idArg, None)
  {
  }

  /** The filters after the category one: price range, the featured flag (`bool(raw)`, so
      any non-empty value, 'false' included, asks for featured products), the stock flag and
      the search term. */
  predicate PassesOtherFilters(p: Product, q: ListQuery) {
    && p.isActive
    && (q.minPrice.Some? ==> p.price as real >= q.minPrice.value * 100.0)
    && (q.maxPrice.Some? ==> p.price as real <= q.maxPrice.value * 100.0)
    && (q.isFeatured.Some? ==> p.isFeatured == (q.isFeatured.value != ""))
    && (q.inStock.Some? && q.inStock.value != "" ==> p.stockQuantity > 0)
    && (Strip(q.search) != [] ==> MatchesSearch(p, Strip(q.search)))
  }

  datatype Listing = ListError(status: int, error: string) | Listed(products: seq<Product>, column: SortColumn, ascending: bool)

  /** The rows `get_products` keeps as written: the join with `product_categories` and the
      filter `category_id == category_id` run even when no category was given, and a link's
      category id is never NULL, so that case keeps no product. */
  function ListedRowsAsWritten(products: seq<Product>, cat: Option<CategoryId>,
                               links: set<(ProductId, CategoryId)>, q: ListQuery): (r: seq<Product>)
    ensures forall p :: p in r <==> p in products && cat.Some? && (p.id, cat.value) in links && PassesOtherFilters(p, q)
    ensures cat.None? ==> r == []
  {
    Select(products, (p: Product) => cat.Some? && (p.id, cat.value) in links && PassesOtherFilters(p, q))
  }

  /** The rows `get_products` evidently means to keep: the category join applies only when
      a category was given. */
  function ListedRows(products: seq<Product>, cat: Option<CategoryId>,
                      links: set<(ProductId, CategoryId)>, q: ListQuery): (r: seq<Product>)
    ensures forall p :: p in r <==> p in products && (cat.Some? ==> (p.id, cat.value) in links) && PassesOtherFilters(p, q)
  {
    Select(products, (p: Product) => (cat.Some? ==> (p.id, cat.value) in links) && PassesOtherFilters(p, q))
  }

  /** `get_products` as written. */
  function ListProductsAsWritten(products: seq<Product>, categories: seq<Category>,
                                 links: set<(ProductId, CategoryId)>, q: ListQuery): (r: Listing)
    ensures r.ListError? <==> ResolveCategory(categories, q.categoryId, q.categorySlug).CategoryError?
    ensures r.Listed? ==> r.products == ListedRowsAsWritten(products, ResolveCategory(categories, q.categoryId, q.categorySlug).id, links, q)
  {
    match ResolveCategory(categories, q.categoryId, q.categorySlug)
    case CategoryError(s, e) => ListError(s, e)
    case Chosen(cat) => Listed(ListedRowsAsWritten(products, cat, links, q), SortColumnOf(q.sortBy), AscendingOf(q.sortOrder))
  }

  /** Without a category the listing as written is always empty, whatever the catalog. */
  lemma NoCategoryListsNothing(products: seq<Product>, categories: seq<Category>,
                               links: set<(ProductId, CategoryId)>, q: ListQuery)
    requires q.categoryId.NoId? && !SlugGiven(q.categorySlug)
    ensures ListProductsAsWritten(products, categories, links, q) == Listed([], SortColumnOf(q.sortBy), AscendingOf(q.sortOrder))
  {
  }

  /** `get_products` as evidently intended; the sort column and direction go to the
      database's `ORDER BY`. */
  function ListProducts(products: seq<Product>, categories: seq<Category>,
                        links: set<(ProductId, CategoryId)>, q: ListQuery): (r: Listing)
    ensures r.ListError? <==> ResolveCategory(categories, q.categoryId, q.categorySlug).CategoryError?
    ensures r.ListError? ==> r == ListError(ResolveCategory(categories, q.categoryId, q.categorySlug).status,
                                            ResolveCategory(categories, q.categoryId, q.categorySlug).error)
    ensures r.Listed? ==> r.products == ListedRows(products, ResolveCategory(categories, q.categoryId, q.categorySlug).id, links, q)
    ensures r.Listed? ==> r.column == SortColumnOf(q.sortBy) && r.ascending == AscendingOf(q.sortOrder)
  {
    match ResolveCategory(categories, q.categoryId, q.categorySlug)
    case CategoryError(s, e) => ListError(s, e)
    case Chosen(cat) => Listed(ListedRows(products, cat, links, q), SortColumnOf(q.sortBy), AscendingOf(q.sortOrder))
  }

  lemma {:induction false} SelectExtensional(ps: seq<Product>, f: Product -> bool, g: Product -> bool)
    requires forall p :: f(p) == g(p)
    ensures Select(ps, f) == Select(ps, g)
  {
    if ps != [] {
      SelectExtensional(ps[1..], f, g);
    }
  }

  /** With a category the corrected listing is the listing as written. */
  lemma ListingsAgreeWithCategory(products: seq<Product>, categories: seq<Category>,
                                  links: set<(ProductId, CategoryId)>, q: ListQuery)
    requires ResolveCategory(categories, q.categoryId, q.categorySlug) != Chosen(None)
    ensures ListProducts(products, categories, links, q) == ListProductsAsWritten(products, categories, links, q)
  {
    var c := ResolveCategory(categories, q.categoryId, q.categorySlug);
    if c.Chosen? {
      var cat := c.id;
      SelectExtensional(products,
        (p: Product) => (cat.Some? ==> (p.id, cat.value) in links) && PassesOtherFilters(p, q),
        (p: Product) => cat.Some? && (p.id, cat.value) in links && PassesOtherFilters(p, q));
    }
  }

  /** Without a category or any other filter, the corrected listing holds every active
      product, in table order. */
  lemma UnfilteredListingHoldsAllActive(products: seq<Product>, categories: seq<Category>,
                                        links: set<(ProductId, CategoryId)>, q: ListQuery)
    requires q.categoryId.NoId? && !SlugGiven(q.categorySlug)
    requires q.minPrice.None? && q.maxPrice.None? && q.isFeatured.None? && q.inStock.None? && Strip(q.search) == []
    ensures ListProducts(products, categories, links, q).products == Select(products, Active)
  {
    var cat: Option<CategoryId> := None;
    SelectExtensional(products, (p: Product) => (cat.Some? ==> (p.id, cat.value) in links) && PassesOtherFilters(p, q), Active);
  }

  /** The discrepancy on the smallest catalog: one active product and a request without
      any argument. As written the page is empty; the corrected listing returns the product. */
  lemma ActiveProductMissingAsWritten(p: Product, q: ListQuery)
    requires p.isActive
    requires q.categoryId.NoId? && !SlugGiven(q.categorySlug)
    requires q.minPrice.None? && q.maxPrice.None? && q.isFeatured.None? && q.inStock.None? && Strip(q.search) == []
    ensures ListProductsAsWritten([p], [], {}, q).products == []
    ensures ListProducts([p], [], {}, q).products == [p]
  {
    UnfilteredListingHoldsAllActive([p], [], {}, q);
    assert [p][1..] == [];
  }

  /** `?is_featured=false` still selects featured products: `bool('false')` is true. */
  lemma FeaturedFlagIsNonEmptiness(p: Product, q: ListQuery)
    requires q.isFeatured == Some("false") && PassesOtherFilters(p, q)
    ensures p.isFeatured
  {
  }
}
