/** The `Product` and `ProductVariant` rows (app/models/product.py, with the variant columns
    the cart and the catalog read) and the derived properties of a product. Prices are in
    cents and weights in thousandths, matching the columns' fixed scales. */
module ProductModel {
  import opened Wrappers
  import opened Ids

  datatype Variant = Variant(
    id: VariantId,
    productId: ProductId,
    isActive: bool,
    stockQuantity: int,
    price: Option<int>)

  datatype Product = Product(
    id: ProductId,
    name: string,
    slug: string,
    description: Option<string>,
    shortDescription: Option<string>,
    sku: string,
    price: int,
    comparePrice: Option<int>,
    weight: Option<int>,
    isActive: bool,
    isFeatured: bool,
    stockQuantity: int,
    lowStockThreshold: int,
    manageStock: bool,
    allowBackorders: bool,
    createdAt: int,
    variants: seq<Variant>,
    imageIds: seq<nat>,
    ratings: seq<int>)

  /** Python truthiness of an optional Decimal column: `None` and zero are falsy. */
  predicate Truthy(x: Option<int>) {
    x.Some? && x.value != 0
  }

  /** `Product.is_in_stock`: unmanaged stock is always available; managed stock needs a
      positive level or back-orders. */
  function IsInStock(p: Product): (r: bool)
    ensures !p.manageStock ==> r
    ensures p.manageStock ==> (r <==> p.stockQuantity > 0 || p.allowBackorders)
  {
    if !p.manageStock then true else p.stockQuantity > 0 || p.allowBackorders
  }

  /** The listing filter `in_stock` keeps products with a positive stock level; every such
      product is in stock, but back-ordered or unmanaged products are in stock without it. */
  lemma PositiveStockIsInStock(p: Product)
    ensures p.stockQuantity > 0 ==> IsInStock(p)
    ensures p.manageStock && !IsInStock(p) ==> p.stockQuantity <= 0
  {
  }

  function SumRatings(ratings: seq<int>): int {
    if ratings == [] then 0 else SumRatings(ratings[..|ratings| - 1]) + ratings[|ratings| - 1]
  }

  /** `Product.average_rating`: 0 without reviews, else the mean rating (Python true division,
      modelled exactly as a real). */
  function AverageRating(p: Product): (r: real)
    ensures p.ratings == [] ==> r == 0.0
    ensures p.ratings != [] ==> r * |p.ratings| as real == SumRatings(p.ratings) as real
  {
    if p.ratings == [] then 0.0 else SumRatings(p.ratings) as real / |p.ratings| as real
  }

  lemma {:induction false} SumRatingsBounds(ratings: seq<int>, lo: int, hi: int)
    requires forall i :: 0 <= i < |ratings| ==> lo <= ratings[i] <= hi
    ensures lo * |ratings| <= SumRatings(ratings) <= hi * |ratings|
  {
    if ratings != [] {
      SumRatingsBounds(ratings[..|ratings| - 1], lo, hi);
    }
  }

  lemma MeanBetween(avg: real, n: real, total: real, bound: real)
    requires n > 0.0 && avg * n == total
    ensures bound * n <= total ==> bound <= avg
    ensures total <= bound * n ==> avg <= bound
  {
    assert avg * n - bound * n == (avg - bound) * n;
  }

  /** The mean of ratings that all lie in [lo, hi] lies in [lo, hi] (a 1 to 5 star scale gives
      an average between 1 and 5). */
  lemma AverageRatingWithinBounds(p: Product, lo: int, hi: int)
    requires p.ratings != []
    requires forall i :: 0 <= i < |p.ratings| ==> lo <= p.ratings[i] <= hi
    ensures lo as real <= AverageRating(p) <= hi as real
  {
    SumRatingsBounds(p.ratings, lo, hi);
    var n := |p.ratings|;
    var total := SumRatings(p.ratings) as real;
    assert (lo * n) as real == lo as real * n as real;
    assert (hi * n) as real == hi as real * n as real;
    MeanBetween(AverageRating(p), n as real, total, lo as real);
    MeanBetween(AverageRating(p), n as real, total, hi as real);
  }

  /** The JSON view `Product.to_dict` builds. */
  datatype ProductView = ProductView(
    id: ProductId,
    name: string,
    slug: string,
    description: Option<string>,
    shortDescription: Option<string>,
    sku: string,
    price: int,
    comparePrice: Option<int>,
    weight: Option<int>,
    isActive: bool,
    isFeatured: bool,
    stockQuantity: int,
    isInStock: bool,
    averageRating: real,
    reviewCount: nat,
    variants: Option<seq<VariantId>>,
    images: Option<seq<nat>>)

  function VariantIds(vs: seq<Variant>): (ids: seq<VariantId>)
    ensures |ids| == |vs| && forall i :: 0 <= i < |vs| ==> ids[i] == vs[i].id
  {
    if vs == [] then [] else [vs[0].id] + VariantIds(vs[1..])
  }

  /** `Product.to_dict`: falsy compare price and weight become null, the review count is the
      number of reviews, and the variant and image lists appear only when asked for. */
  function ProductToDict(p: Product, includeVariants: bool, includeImages: bool): (v: ProductView)
    ensures v.reviewCount == |p.ratings|
    ensures v.comparePrice.None? <==> !Truthy(p.comparePrice)
    ensures v.weight.None? <==> !Truthy(p.weight)
    ensures v.weight.Some? ==> v.weight == p.weight
    ensures v.comparePrice.Some? ==> v.comparePrice == p.comparePrice
    ensures v.variants.Some? <==> includeVariants
    ensures v.images.Some? <==> includeImages
    ensures includeVariants ==> |v.variants.value| == |p.variants|
    ensures v.isInStock == IsInStock(p) && v.averageRating == AverageRating(p)
  {
    ProductView(
      p.id, p.name, p.slug, p.description, p.shortDescription, p.sku, p.price,
      if Truthy(p.comparePrice) then p.comparePrice else None,
      if Truthy(p.weight) then p.weight else None,
      p.isActive, p.isFeatured, p.stockQuantity, IsInStock(p), AverageRating(p), |p.ratings|,
      if includeVariants then Some(VariantIds(p.variants)) else None,
      if includeImages then Some(p.imageIds) else None)
  }
}
