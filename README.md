# e-commerce backend core, modelled in Dafny

This project models the core of the JeremiasPanozzo/e-commerce backend, a Flask and SQLAlchemy shop
on PostgreSQL, and proves properties of that model. Its centre is the shopping cart service
(`app/api/cart_endpoints.py`). The service is modelled as an in-memory store, the class
`CartService.CartStore`: a sequence of carts (each keyed by a user id or a session id) and a
sequence of cart-item rows (each keyed by cart, product and variant), changed in place by the
handlers.

- **The store invariant** (`CartQueries.StoreInvariant`) is kept by every handler:
  - at most one cart per user and per session;
  - at most one row per (cart, product, variant) triple;
  - every row belongs to an existing cart and has a positive quantity.
- **Handler contracts** give each handler's checks in the source's order, with their status
  codes and messages. They also state:
  - the totals, which are sums over the cart's rows;
  - which rows change and which do not;
  - for merging a guest cart, that the user cart's total quantity grows by exactly the
    guest cart's total quantity.

Around the cart sit the smaller pieces, one module each:
- **Cart and product models:** the cart and cart-item sums, and the product stock rule and
  average rating (`CartModel`, `ProductModel`).
- **Catalog queries:**
  - pagination, sort choice and category checks;
  - the PostgreSQL `ILIKE` search and its ranking;
  - the stock statistics (`CatalogQuery`, which uses `SqlLike` for LIKE patterns).
- **Coupons:** the coupon rules (`CouponRules`).
- **Validators:** the password, email, phone and date-of-birth checks (`Validators`).
- **Auth:** the register and login decisions, and the revoked-token table (`Auth`).
- **User edits:** the address and password-change handlers (`EditUser`, `AddressModel`).
- **Log redaction:** the log-data redaction and request-logging decisions (`LogFilter`).

Shared modelling conventions:
- Ids are opaque natural numbers; a fresh UUID is the store's next counter value.
- Cart and product money is in integer cents; coupon amounts are reals.
- Python truthiness (`None`, `0` and `""` are falsy) is written out wherever the source relies
  on it.
- Password hashing, hash checking and the user lookup are parameters of the handlers that use
  them.

## Model

| member | source | states |
|---|---|---|
| CartModel.TotalPrice | app/models/cart_item.py:18-20 | `total_price` is unit_price × quantity: one unit costs the unit price, zero units cost 0, and a non-negative price and quantity never give a negative total |
| CartModel.TotalItems | app/models/cart.py:14-16 | `total_items` is the sum of the row quantities; with positive quantities it is at least the number of rows |
| CartModel.Subtotal | app/models/cart.py:18-20 | `subtotal` sums the rows' total prices; its partners `SumsAppend`, `SubtotalBounds`, `SumsAfterQuantityChange` and `SumsAfterRemoval` state that it splits over concatenation, is 0 for no rows, is non-negative and at least every row's total when prices and quantities are, and changes by exactly the changed or removed row |
| CartModel.SumsAppend | app/models/cart.py:14-20 | both sums of a concatenation of rows are the sums of the parts |
| CartModel.SubtotalBounds | app/models/cart.py:14-20 | a cart with no rows has 0 items and subtotal 0; with non-negative prices and quantities the subtotal is non-negative and no row's total exceeds it |
| CartModel.SumsSingleton | app/models/cart_item.py:18-20 | one row contributes its quantity and unit_price × quantity |
| CartModel.SumsOfPrefix | app/models/cart.py:14-20 | extending a prefix by one row adds that row's quantity and total price |
| CartModel.SumsAround | app/models/cart.py:14-20 | the sums split around any row |
| CartModel.SumsAfterQuantityChange | app/models/cart.py:14-20 | changing one row's quantity changes the sums by exactly that row's difference |
| CartModel.SumsAfterRemoval | app/models/cart.py:14-20 | removing one row subtracts exactly its quantity and total price |
| CartModel.ItemToDict | app/models/cart_item.py:22-31 | variant_id is None exactly when the row has no variant; total_price = unit_price × quantity of the same row |
| CartModel.CartToDict | app/models/cart.py:22-29 | one item entry per row, in row order, each the row's `to_dict` |
| CartModel.ViewSums | app/models/cart.py:22-29 | the quantities and totals listed in `to_dict` add up to `total_items` and `subtotal` |
| CartModel.CartToDictConsistent | app/models/cart.py:22-29 | the `total_items` and `subtotal` of `to_dict` equal the sums of its own item entries |
| ProductModel.IsInStock | app/models/product.py:39-43 | unmanaged stock is always in stock; managed stock is in stock iff stock > 0 or back-orders are allowed |
| ProductModel.PositiveStockIsInStock | app/models/product.py:39-43 | positive stock implies in stock; a managed product out of stock has stock ≤ 0 |
| ProductModel.AverageRating | app/models/product.py:33-37 | 0 with no reviews; otherwise the mean, i.e. average × count = sum of ratings |
| ProductModel.SumRatingsBounds | app/models/product.py:33-37 | ratings in [lo, hi] sum to between lo × n and hi × n |
| ProductModel.AverageRatingWithinBounds | app/models/product.py:33-37 | a product with at least one review, all rated in [lo, hi], has its average in [lo, hi] |
| ProductModel.VariantIds | app/models/product.py:65-66 | the variant list of `to_dict` has one id per variant, in order |
| ProductModel.ProductToDict | app/models/product.py:45-71 | review_count is the number of reviews; compare_price and weight are None exactly when falsy and otherwise the product's own values; 'variants' and 'images' appear exactly when asked for, with one entry per variant; is_in_stock and average_rating are those of the product |
| CartQueries.FindUserCart | app/api/cart_endpoints.py:15 | the first cart of the user, or none exactly when the user has no cart |
| CartQueries.FindSessionCart | app/api/cart_endpoints.py:21 | the first cart of the session, or none exactly when the session has no cart |
| CartQueries.LookupCart | app/api/cart_endpoints.py:11-29 | the user id is used in preference to the session id; none when neither is given; a found cart has the requested owner |
| CartQueries.LookupFindsNewCart | app/api/cart_endpoints.py:14-25 | the cart created for an identity is the one the next lookup finds |
| CartQueries.FindCart | app/api/cart_endpoints.py:299-300 | the cart with a given id, or none exactly when no cart has it |
| CartQueries.FindItem | app/api/cart_endpoints.py:290-292 | the row with a given id, or none exactly when no row has it |
| CartQueries.FindRow | app/api/cart_endpoints.py:208-212 | the row of a (cart, product, variant) triple, or none exactly when there is none |
| CartQueries.RowsOfMembers | app/api/cart_endpoints.py:31-36 | a row is among a cart's rows exactly when it is in the table with that cart id |
| CartQueries.RowsNotOfMembers | app/api/cart_endpoints.py:419 | deleting a cart's rows keeps exactly the rows of other carts |
| CartQueries.RowsOfAppend | app/api/cart_endpoints.py:31-36 | a cart's rows in a concatenated table are its rows in each part, in order |
| CartQueries.RowsAfterAppend | app/api/cart_endpoints.py:231-243 | after a row is appended, a cart's rows are its old rows plus the new row if it is that cart's, and its total quantity grows by the new row's quantity |
| CartQueries.RowsAfterQuantityChange | app/api/cart_endpoints.py:217-228 | changing a row's quantity leaves every other cart's rows unchanged, keeps the row count of its own cart and changes that cart's total quantity by exactly the difference |
| CartQueries.RowsAfterRemoval | app/api/cart_endpoints.py:304-313 | deleting one row leaves every other cart's rows unchanged; its own cart has one row fewer and its total quantity drops by the row's quantity |
| CartQueries.RowsAfterCartDelete | app/api/cart_endpoints.py:486-487 | deleting a cart's rows empties that cart and leaves the others' rows unchanged |
| CartQueries.NewCartKeepsInvariant | app/api/cart_endpoints.py:14-25 | creating a cart for an identity without one keeps one cart per owner and distinct ids |
| CartQueries.QuantityChangeKeepsInvariant | app/api/cart_endpoints.py:217-228 | a positive quantity change keeps the row invariant |
| CartQueries.AppendKeepsInvariant | app/api/cart_endpoints.py:231-243 | appending a fresh row for a triple without one keeps one row per triple |
| CartQueries.RemoveKeepsInvariant | app/api/cart_endpoints.py:304-313 | deleting a row keeps the row invariant |
| CartQueries.CartDeleteKeepsInvariant | app/api/cart_endpoints.py:486-487 | deleting a cart with its rows keeps the store invariant |
| CartQueries.FindRowFindsOwnRow | app/api/cart_endpoints.py:208-212 | in a valid table the lookup of a row's triple finds that row |
| CartQueries.FreshCartHasNoRows | app/api/cart_endpoints.py:14-25 | a newly created cart has no rows |
| CartQueries.UserCartIsUnique | app/api/cart_endpoints.py:15 | in a valid store, looking up the owner of a user cart finds that very cart: a user owns at most one cart |
| CartQueries.UserCartSurvivesRemoval | app/api/cart_endpoints.py:454-487 | deleting the guest cart keeps the user's cart and its lookup |
| CartQueries.SessionCartGone | app/api/cart_endpoints.py:486-487 | after the guest cart is deleted no cart has that session any more |
| CartQueries.AddUnits | app/api/cart_endpoints.py:208-243 | the rows after adding q units of a (cart, product, variant) triple at a unit price; its partners `AddUnitsRow`, `AddUnitsSum`, `AddUnitsOtherCart` and `AddUnitsKeepsInvariant` state that the matching row grows by q or one new row with the fresh id is appended, the cart total grows by q, other carts are untouched and the row invariant holds |
| CartQueries.AddUnitsSum | app/api/cart_endpoints.py:208-243 | adding q units to a cart raises its total quantity by exactly q |
| CartQueries.AddUnitsOtherCart | app/api/cart_endpoints.py:208-243 | adding units to one cart leaves every other cart's rows unchanged |
| CartQueries.AddUnitsRow | app/api/cart_endpoints.py:208-243 | afterwards the triple has a row: an existing row stays where it was, keeps its id and unit_price and grows by q; otherwise the found row is the new one with the fresh id, q and the given price |
| CartQueries.AddUnitsKeepsInvariant | app/api/cart_endpoints.py:208-243 | adding units keeps the row invariant and uses a fresh id only for a new row |
| CartQueries.MergeAll | app/api/cart_endpoints.py:460-481 | the merge loop of `merge_guest_cart` as a fold of `AddUnits` over the guest rows in order, each copied with its own unit price, returning the rows and the next row id; its partners `MergeAllSum`, `MergeAllOtherCarts` and `MergeAllStep` state the target total grows by the guest total, other carts are untouched, and each row is one `AddUnits` step |
| CartQueries.MergeAllSum | app/api/cart_endpoints.py:460-481 | merging raises the target cart's summed quantity by exactly the merged rows' sum, for every table |
| CartQueries.MergeAllOtherCarts | app/api/cart_endpoints.py:460-481 | merging leaves every other cart's rows as they were |
| CartQueries.MergeAllStep | app/api/cart_endpoints.py:460-481 | merging one more guest row is one more `AddUnits` step on the merge of the earlier rows, in loop order |
| CartService.ValidateProductAndVariant | app/api/cart_endpoints.py:50-68 | accepted iff the product is active and a given variant is active and belongs to it; "Product not found" before the variant message |
| CartService.PriceOf | app/api/cart_endpoints.py:233 | the unit price of a new row: the product's price without a variant or when the variant's price is null or 0, otherwise the variant's price |
| CartService.CheckAdd | app/api/cart_endpoints.py:164-192 | the checks of `add_to_cart` in order: product_id 400, quantity integer in 1..10 (400), catalog 404, stock 400; accepted values carry the stock of the variant or product and the variant price when truthy |
| CartService.CheckAddAcceptsExactly | app/api/cart_endpoints.py:164-192 | an addition is accepted exactly when every check holds |
| CartService.QuantityCheckedBeforeCatalog | app/api/cart_endpoints.py:175-184 | with a bad quantity the answer does not depend on the catalog |
| CartService.MayModify | app/api/cart_endpoints.py:300 | the permission test of `update_cart_item` (and the same test at line 371 of `remove_from_cart`): the cart's user_id equals the caller's or its session_id equals the caller's session; `PermissionByKindOfCaller` states what that test decides for each kind of caller |
| CartService.PermissionByKindOfCaller | app/api/cart_endpoints.py:295-301 | for a user cart the test passes iff the caller is logged in or has no cookie; for a guest cart iff the caller is anonymous |
| CartService.UpdatePlan | app/api/cart_endpoints.py:275-332 | 400 "item_id and quantity are required" when either is absent and 400 for a quantity outside 0..10; a deletion only for the named row, owned by the caller, with quantity 0; a new quantity only for the named owned row, in 1..10 and within the stock of its product or variant |
| CartService.UpdateOutcomes | app/api/cart_endpoints.py:295-332 | for an existing row and a valid quantity: 403 exactly when the caller does not own it; deletion when owned, q = 0 and the product exists; the new quantity when owned, q > 0 and q within stock |
| CartService.RemovePlan | app/api/cart_endpoints.py:356-377 | 400 for a malformed id, 404 for an unknown row, 403 exactly when not owned, otherwise delete that row |
| CartService.ListedRows | app/api/cart_endpoints.py:97-100 | `get_cart` lists exactly the cart's rows whose product is active |
| CartService.HiddenRowsStillCounted | app/api/cart_endpoints.py:97-145 | a row with an inactive product is not listed but still counted in the totals |
| CartService.CartStore.constructor | app/api/cart_endpoints.py:11-29 | an empty store satisfies the invariant |
| CartService.CartStore.GetOrCreateCart | app/api/cart_endpoints.py:11-29 | none without identity; an existing cart is returned and the table is unchanged; otherwise exactly one empty cart for the identity, user id first, is appended (`CartsAfterGetOrCreate`) and the next cart id advances |
| CartService.CartStore.CalculateCartTotals | app/api/cart_endpoints.py:31-48 | subtotal = Σ unit_price × quantity, total_items = Σ quantity, items_count = number of rows, over that cart's rows only |
| CartService.CartStore.CartCount | app/api/cart_endpoints.py:510-538 | (0, 0) without a cart; otherwise the number of rows and the total quantity of the caller's cart; `AddToCart`, `ClearCart` and `MergeGuestCart` state how each changes this count |
| CartService.CartStore.GetCart | app/api/cart_endpoints.py:72-154 | the cart of the caller (a fresh session for an anonymous caller without cookie), its listed rows and its totals; rows never change, and the cart table changes only by the cart `get_or_create_cart` creates |
| CartService.CartStore.AddToRow | app/api/cart_endpoints.py:208-243 | the rows become `AddUnits` of the old rows: grow the existing row or append one new row, taking a fresh id only then; the cart's total quantity grows by exactly q and other carts' rows are unchanged |
| CartService.CartStore.DeleteRow | app/api/cart_endpoints.py:376-382 | removes exactly that row; the total quantity of its cart falls by the row's quantity and the totals are that cart's |
| CartService.CartStore.SetRowQuantity | app/api/cart_endpoints.py:327-334 | changes only that row's quantity; its cart's total quantity moves by the difference and the totals are that cart's |
| CartService.CartStore.AddAccepted | app/api/cart_endpoints.py:201-243 | the caller's cart is found or created (the table becomes `CartsAfterGetOrCreate`); an existing row whose new total exceeds the stock gives 400 and changes neither carts nor rows; otherwise 200, the rows become `AddUnits` and the cart's quantity grows by q |
| CartService.CartStore.DeleteCartAndRows | app/api/cart_endpoints.py:486-487 | removes the cart and exactly its rows; other carts' rows are unchanged |
| CartService.CartStore.AddToCart | app/api/cart_endpoints.py:161-258 | a rejected check changes nothing; an existing row whose new total exceeds the stock gives 400 "Insufficient stock for the requested quantity" and changes nothing; otherwise 200, the cart table becomes `CartsAfterGetOrCreate`, the rows become `AddUnits`, the caller's count grows by q, and the totals are those of the cart |
| CartService.CartStore.UpdateCartItem | app/api/cart_endpoints.py:269-348 | carries out `UpdatePlan`: failures change nothing; deletion or the new quantity changes that row only, with the cart sums adjusted accordingly |
| CartService.CartStore.RemoveFromCart | app/api/cart_endpoints.py:352-394 | carries out `RemovePlan`: exactly the named row is deleted, or nothing changes |
| CartService.CartStore.ClearCart | app/api/cart_endpoints.py:398-427 | 404 without a cart; otherwise reports the old row count (the old `CartCount`), deletes every row of that cart and no other cart's rows; afterwards the caller's count is (0, 0) |
| CartService.CartStore.MergeRows | app/api/cart_endpoints.py:457-483 | the rows and the next row id become exactly `MergeAll` of the guest rows: each added into the target's matching row or copied with its unit price; merged = number of guest rows; the target's total grows by the guest total; other carts' rows and all carts unchanged |
| CartService.CartStore.MergeIntoUserCart | app/api/cart_endpoints.py:454-483 | the cart table becomes `CartsAfterGetOrCreate` for the user; the rows become `MergeAll` of the guest rows into the user's cart; its total quantity grows by exactly the guest total; the guest cart keeps its index and every other cart's rows are unchanged |
| CartService.CartStore.MergeGuestCart | app/api/cart_endpoints.py:437-501 | 400 without guest session and 404 without guest cart, both changing nothing; otherwise the carts become `CartsAfterGetOrCreate` for the user minus the guest cart, the rows become `MergeAll` of the guest rows into the user's cart minus the guest rows, and the user's count grows by exactly the guest total |
| CatalogQuery.ValidatePagination | app/api/products_endpoints.py:19-25 | page ≥ 1 and 1 ≤ per_page ≤ 100; pages ≥ 1 are kept; out-of-range per_page becomes 10, in-range is kept |
| CatalogQuery.PaginationIdempotent | app/api/products_endpoints.py:19-25 | sanitising twice equals once; the input is a fixed point iff both values are in range |
| CatalogQuery.SortColumnOf | app/api/products_endpoints.py:135-142 | name for 'name', price for 'price', created_at for anything else |
| CatalogQuery.AscendingOf | app/api/products_endpoints.py:144-147 | ascending exactly for 'asc' |
| CatalogQuery.Select | app/api/products_endpoints.py:93-132 | a filtered query holds exactly the rows of the table that pass the filter |
| CatalogQuery.CountDisjoint | app/api/products_endpoints.py:398-408 | two disjoint conditions that imply a third count no more rows together than it |
| CatalogQuery.CountIsSelected | app/api/products_endpoints.py:398-408 | a `count()` counts exactly the rows the same filter selects |
| CatalogQuery.ProductStats | app/api/products_endpoints.py:398-408 | each field is the count of its class (active; active and featured; active with zero stock; active with 0 < stock ≤ threshold); out_of_stock + low_stock ≤ total active, and featured ≤ total active |
| CatalogQuery.MatchesSearch | app/api/products_endpoints.py:123-132 | the `or_` of four `ilike` filters with the pattern `%term%` on name, short description, description and sku (the same filter at lines 267-275 of `search_products`); `SearchIsSubstring` states it is a case-insensitive substring test for a wildcard-free term |
| CatalogQuery.SearchIsSubstring | app/api/products_endpoints.py:123-132 | for a term without LIKE wildcards a product matches iff the lower-cased term is a substring of the name, a present short description, a present description, or the sku |
| CatalogQuery.InsertByRank | app/api/products_endpoints.py:276-279 | inserting into a ranked list keeps it ranked and adds exactly the element |
| CatalogQuery.SortByRank | app/api/products_endpoints.py:276-279 | the result is ranked (name matches first, then newest first) and a permutation of the input |
| CatalogQuery.SearchProducts | app/api/products_endpoints.py:256-285 | 400 "Search term is required." iff the stripped term is empty; otherwise exactly the active matching products, ranked, as a permutation of the matches |
| CatalogQuery.SeparatorTermRefused | app/api/products_endpoints.py:258-260 | a term made only of the separators 0x1C-0x1F strips to nothing and gets the 400 answer |
| CatalogQuery.FindCategoryBySlug | app/api/products_endpoints.py:97 | a found category has that slug; none iff no category has it |
| CatalogQuery.ResolveCategory | app/api/products_endpoints.py:96-104 | a non-empty slug wins and must name a category (404); otherwise a given id must be a UUID (400); no category otherwise |
| CatalogQuery.EmptySlugIgnored | app/api/products_endpoints.py:96 | an empty `category_slug` is treated as no slug at all |
| CatalogQuery.ListedRowsAsWritten | app/api/products_endpoints.py:93-132 | the rows kept as written: linked to the category and passing the other filters; none without a category |
| CatalogQuery.ListProductsAsWritten | app/api/products_endpoints.py:93-147 | `get_products` as written: category errors, else the rows kept as written with the chosen order |
| CatalogQuery.NoCategoryListsNothing | app/api/products_endpoints.py:102-106 | as written, a listing without a category is empty for every catalog |
| CatalogQuery.ActiveProductMissingAsWritten | app/api/products_endpoints.py:102-106 | a catalog of one active product requested with no argument: the page is empty as written and holds the product when corrected |
| CatalogQuery.ListedRows | app/api/products_endpoints.py:93-132 | the corrected rows: the category link is required only when a category was given |
| CatalogQuery.ListProducts | app/api/products_endpoints.py:93-147 | corrected `get_products`: the same errors, the corrected rows, the chosen sort column and direction |
| CatalogQuery.ListingsAgreeWithCategory | app/api/products_endpoints.py:102-106 | with a category the corrected and the as-written listings coincide |
| CatalogQuery.UnfilteredListingHoldsAllActive | app/api/products_endpoints.py:93-132 | with no category and no filter the corrected listing is every active product in table order |
| CatalogQuery.FeaturedFlagIsNonEmptiness | app/api/products_endpoints.py:80-116 | `?is_featured=false` still keeps only featured products, since `bool('false')` is true |
| SqlLike.LikeContains | app/api/products_endpoints.py:124-131 | for a wildcard-free term, `s LIKE '%term%'` iff term is a substring of s |
| SqlLike.UnderscoreMatchesAnyCharacter | app/api/products_endpoints.py:123 | `_` in the search term is a LIKE wildcard: every one-character field matches the pattern `%_%` built from the term "_" |
| CouponRules.IsValid | app/models/coupon.py:20-30 | valid iff active and not below an applicable minimum (both amounts truthy); an inactive coupon gets "no válido" first; the minimum message carries the minimum |
| CouponRules.ValidityIgnoresWindowAndUsage | app/models/coupon.py:20-30 | the validity window and the usage counters never change the verdict |
| CouponRules.NoAmountOnlyActivityCounts | app/models/coupon.py:27-28 | without a truthy order amount only activity decides |
| CouponRules.CalculateDiscount | app/models/coupon.py:32-39 | percentage: order × value / 100, capped at a truthy maximum; any other type: min(value, order) |
| CouponRules.DiscountWithinOrder | app/models/coupon.py:32-39 | with sensible non-negative values the discount lies between 0 and the order amount |
| Validators.ValidatePassword | app/utils/utils_auth.py:3-24 | accepted iff every rule holds; otherwise the message of the first broken rule in the order empty, length, upper, lower, digit, special |
| Validators.FirstBrokenRuleIsFirst | app/utils/utils_auth.py:6-24 | the chain of checks stops at a broken rule all of whose predecessors hold, and runs to the end only when every rule holds |
| Validators.RuleChecks | app/utils/utils_auth.py:6-22 | each rule in the list holds exactly when its check in the source passes, and carries that check's message |
| Validators.AcceptedPasswordIsStrong | app/utils/utils_auth.py:9-24 | an accepted password has ≥ 8 characters and an upper-case letter, a lower-case letter, a digit and a listed special character |
| Validators.ScanDomainFinds | app/utils/utils_auth.py:31 | the domain scan succeeds iff a '.' followed by a non-'@' comes before any '@' |
| Validators.EmailShapeFromFirstAt | app/utils/utils_auth.py:31 | the regex matches iff the first '@' comes after at least one character, is followed by a non-'@' and then a '.' with a non-'@' after it before any further '@' |
| Validators.EmailShaped | app/utils/utils_auth.py:31 | the scanner agrees with the start-anchored regex `[^@]+@[^@]+\.[^@]+` |
| Validators.ValidateEmail | app/utils/utils_auth.py:26-34 | "Email is required." for empty; otherwise accepted iff a prefix matches the regex |
| Validators.EmailSuffixIgnored | app/utils/utils_auth.py:31 | anything may follow a valid address |
| Validators.PhoneShaped | app/utils/utils_auth.py:41 | the test agrees with `^\+?[0-9]{7,15}$` including Python's tolerance of one final newline |
| Validators.PhoneShapedMeansSplit | app/utils/utils_auth.py:41 | after dropping one final newline and one leading '+', the regex matches iff 7 to 15 digits remain |
| Validators.SplitIsShape | app/utils/utils_auth.py:41 | any split of a matching number into sign, digits and final newline leaves the same digits as dropping one final newline and one leading '+' |
| Validators.ValidatePhone | app/utils/utils_auth.py:36-44 | empty is optional and accepted; otherwise accepted iff the regex matches |
| Validators.PhoneTrailingNewline | app/utils/utils_auth.py:41 | one trailing newline after a valid number is accepted, two are not |
| Validators.ValidateDateOfBirth | app/utils/utils_auth.py:46-48 | a verdict (accepting) exactly for the empty value; None otherwise |
| RequestBody.FirstMissing | app/api/auth.py:24-29 | none iff all required keys are present; otherwise the first absent one in order |
| Auth.Register | app/api/auth.py:15-50 | 400 "Missing JSON in request" for an absent or empty body; the first missing key; creation iff the keys are present, the email and password validate, and the email is not registered; optional phone and birth date stripped when truthy |
| Auth.OptionalStripped | app/api/auth.py:35-36 | phone and date_of_birth are kept, stripped, exactly when present and non-empty |
| Auth.RegisterCheckOrder | app/api/auth.py:38-50 | a bad email is reported whatever the password; then a weak password; "User already exists" is the answer exactly when the email is valid, the password strong and the email already registered |
| Auth.RegisterIgnoresPhoneFormat | app/api/auth.py:35 | the phone is never validated: an acceptable registration goes through with any phone |
| Auth.FindAccount | app/api/auth.py:82 | the account with that email, or none iff there is none |
| Auth.Login | app/api/auth.py:71-90 | 400 when email or password is falsy; tokens iff the account exists and the password checks; otherwise the same 401 |
| Auth.LoginHidesUnknownEmail | app/api/auth.py:82-85 | an unknown email and a wrong password give the same answer |
| Auth.RevokedTokens.Logout | app/api/auth.py:94-102 | records exactly the token's jti |
| Auth.RevokedTokens.IsRevoked | app/api/auth.py:122-125 | revoked iff some row holds the jti |
| Auth.LogoutRevokes | app/api/auth.py:94-125 | after logout the token is revoked and every other token keeps its state |
| AddressModel.AddressParts | app/models/adresses.py:19-23 | street, an "Apt" segment iff the apartment is truthy (5 segments, else 4), city, state, postal code |
| AddressModel.FullAddress | app/models/adresses.py:19-24 | `full_address`: the street, "Apt " and the apartment when it is non-empty, then city, state and postal code, joined by ", "; its partners `BuildFullAddress`, `FullAddressIgnoresCountryAndKind` and `FullAddressFrame` state that the step-by-step construction gives it, that country and the default/type flags never affect it, and that it begins with the street and ends with the postal code |
| AddressModel.BuildFullAddress | app/models/adresses.py:19-24 | the step-by-step construction yields the ", "-joined segments |
| AddressModel.FullAddressIgnoresCountryAndKind | app/models/adresses.py:19-24 | country, is_default and address_type never affect the full address |
| AddressModel.FullAddressFrame | app/models/adresses.py:19-24 | the full address begins with the street and ends with the postal code |
| AddressModel.AddressToDict | app/models/adresses.py:34-46 | the `full_address` of `to_dict` is the property |
| EditUser.EditAddress | app/api/edit_user.py:11-47 | 404 for an unknown user before the body; then the body; then the first missing field in order; the created address copies the fields |
| EditUser.CountryDefaultNeverApplies | app/api/edit_user.py:24-34 | a created address has the body's country; a body without one is refused with "Missing country parameter" |
| EditUser.ChangePasswordPlan | app/api/edit_user.py:59-81 | the password is replaced iff both values are truthy, the old one checks, the new differs, and it is strong; a missing or falsy value gets "Both old_password and new_password are required", and a weak new password gets the message of its first broken rule; every refusal is 400 |
| EditUser.WrongOldPasswordFirst | app/api/edit_user.py:70-71 | a wrong old password is reported before the other checks |
| EditUser.SamePasswordBeforeStrength | app/api/edit_user.py:73-79 | reusing the old password is reported before the strength check |
| EditUser.UserAccount.SetPasswordHash | app/models/user.py:24-25 | `set_password`: the stored hash becomes the hash of the given password and the user's id is kept |
| EditUser.ChangePassword | app/api/edit_user.py:51-87 | 404 for an unknown user; otherwise the hash changes exactly when the plan accepts, to the hash of the new password, and the user's id is kept |
| LogFilter.Filtered | logging_middleware.py:115-136 | non-dicts unchanged; a dict keeps exactly its keys in order; a sensitive string key maps to '***REDACTED***'; otherwise a dict value is filtered recursively, a list value keeps its length with its dict elements filtered and the others copied, and any other value is copied |
| LogFilter.FilterSensitiveData | logging_middleware.py:115-136 | the imperative filling loop, recursing into dicts and the dict elements of lists, yields the filtered value |
| LogFilter.FilteredValue | logging_middleware.py:127-134 | under a string key that contains a sensitive word the value becomes '***REDACTED***'; otherwise a dict is filtered recursively, a list keeps its length with dict elements filtered and the others copied, and any other value is copied |
| LogFilter.FilterEntry | logging_middleware.py:127-134 | one entry's new value is `FilteredValue`: redacted under a sensitive key, else a dict filtered, a list rebuilt, anything else copied |
| LogFilter.FilterList | logging_middleware.py:131-132 | a list of the same length whose dict elements are filtered and whose other elements are copied |
| LogFilter.Any | logging_middleware.py:127 | the scan over the sensitive names agrees with case-insensitive substring matching |
| LogFilter.FilteredIdempotent | logging_middleware.py:115-136 | filtering twice equals filtering once |
| LogFilter.SubstringMatchesOverreach | logging_middleware.py:120-128 | 'monkey' and 'Author' are redacted too |
| LogFilter.ShouldLogRequest | logging_middleware.py:101-113 | false for paths starting with '/favicon.ico', '/static/' or '/health' and for endpoint 'static'; true otherwise |
| LogFilter.HealthPrefixOverreach | logging_middleware.py:104-108 | '/healthz' is skipped too |
| LogFilter.LevelOf | logging_middleware.py:65-67 | error for ≥ 500, warning for 400–499, info otherwise |
| LogFilter.LevelMonotone | logging_middleware.py:65-67 | a higher status never logs at a lower level |

## Left out

- Flask and SQLAlchemy plumbing is not modelled: routing, `jsonify`, sessions, commits and rollbacks. The handlers are functions and methods over explicit inputs.
- Exception handlers that answer 500 for database or unexpected errors are not modelled. The exceptions are the missing-product paths of `update_cart_item` and `remove_from_cart`, which are modelled.
- Concurrency is not modelled: the duplicate-cart race in `get_or_create_cart` and the read-then-write of stock.
- Clock values are not modelled: `created_at`, `updated_at` and `datetime.utcnow()`. Product `created_at` is an opaque integer used only for ordering.
- UUIDs are not modelled: their generation is the store's counter, and their parsing (`is_valid_uuid`, `uuid.UUID`) is the `Uuid`/`NotUuid` shape of the arguments.
- Floating point is not modelled: the `float(...)` conversions in every `to_dict` and in the totals, the `Decimal(str(float))` price filters (modelled on reals), and the rounded average price in `get_products_stats`.
- Flask-SQLAlchemy `paginate` is not modelled: its slicing and its metadata (pages, has_next and so on) come from the library. `build_product_response` only copies each product's `to_dict` into the page.
- Some product routes are not modelled: `get_product_by_id`, `get_product_by_slug`, `get_featured_products`, `get_products_by_category`, `get_product_variants` and `get_product_images`. They are lookups and `to_dict` copies. The category route's sort choice is the same `SortColumnOf`/`AscendingOf`.
- `get_cart` reports only the rows' fields: the product and variant detail dicts it embeds for each row are not modelled.
- Case folding covers ASCII letters only; Python's and PostgreSQL's Unicode case rules are not modelled. Whitespace stripping follows Python's full `str.isspace()` set.
- `register` is modelled up to the decision to create the user. The `User(...)` construction, `save()` and the 201 response are not modelled.
- `User.filter_by_email`, `User.find_by_id` and `User.save` are defined neither in app/models/user.py nor in app/models/basemodel.py. The model reads them as a lookup by email, a lookup by id and a store.
- Request bodies are JSON objects with string values. A `null` or non-string value and a non-object body are not modelled, and `login` assumes a JSON object.
- Password hashing (`generate_password_hash`, `check_password_hash`) is foreign: `hashOf` and `checkPassword` are parameters. The salt makes the real hash non-deterministic.
- JWT creation and validation are not modelled; a token is identified by its jti.
- Logging output, logger configuration and the timing decorators are not modelled; they are I/O and clocks.
- `merge_guest_cart` with no JSON body raises inside the handler and answers 500; this is not modelled. Its guest session is taken as an optional argument.
- An empty `category_id=` argument of `get_products` is not modelled. It skips the UUID check, the UUID column is then compared with '', the database refuses the query and the handler's catch-all answers 500; `IdArg` has no constructor for it.
- The `dimensions` entry of `Product.to_dict` (app/models/product.py:54) is not modelled: the model's `Product` has no dimensions field, and the entry is a plain copy of the column.
- Coupon and log-redaction values are modelled at the abstraction of their types: coupon amounts are reals, and dict keys are strings or other scalars.
- CatalogQuery.SortByRank orders ties stably, whereas PostgreSQL leaves the order of equal rows unspecified. The contract states only what the database promises: the result is ranked and a permutation of the input.

## Findings

| source | as written | input that shows it | evidently intended | confidence | as-written member | corrected member |
|---|---|---|---|---|---|---|
| app/api/products_endpoints.py:102-106 | the join with `product_categories` and the filter `category_id == category_id` sit outside `if category_id:`, so they run with `category_id = None`, which SQLAlchemy renders as `category_id IS NULL`; that column is part of the primary key of `product_categories` (app/models/associations.py:7), so no link row satisfies it | `GET /all` with no `category_id` and no `category_slug` on a catalog with active products: the page is empty | apply the join and filter only when a category was given | high; not executed | CatalogQuery.ActiveProductMissingAsWritten | CatalogQuery.UnfilteredListingHoldsAllActive |
