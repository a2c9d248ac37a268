/** The cart endpoints of app/api/cart_endpoints.py as operations on an in-memory store
    holding the `carts` and `cart_items` tables. The catalog (`products`,
    `product_variants`) is read-only here and is passed in as maps. */
module CartService {
  import opened Wrappers
  import opened Ids
  import opened CartModel
  import opened ProductModel
  import opened CartQueries

  // ----- request values -----

  /** The JSON `quantity` field as it arrives. */
  datatype QuantityArg = Absent | IntArg(n: int) | BoolArg(b: bool) | OtherArg

  /** `isinstance(quantity, int)`: Python's `bool` is a subclass of `int`, so `true` and
      `false` pass as 1 and 0; a string, a float, null or a list does not. */
  function AsInt(q: QuantityArg): Option<int> {
    match q
    case IntArg(n) => Some(n)
    case BoolArg(b) => Some(if b then 1 else 0)
    case _ => None
  }

  /** The session id the handlers use: none for a logged-in caller, else the cookie's. */
  function CallerSession(user: Option<UserId>, cookie: Option<SessionId>): Option<SessionId> {
    if user.Some? then None else cookie
  }

  /** `get_cart` and `add_to_cart` give an anonymous caller without a cookie a fresh session
      id (`uuid.uuid4()`, here the parameter `newSession`). */
  function SessionOrFresh(user: Option<UserId>, cookie: Option<SessionId>, newSession: SessionId): Option<SessionId> {
    if user.Some? then None else if cookie.Some? then cookie else Some(newSession)
  }

  /** The response's `totals` object. */
  datatype Totals = Totals(subtotal: int, totalItems: int, itemsCount: nat)

  function TotalsOf(rows: seq<CartItem>): Totals {
    Totals(Subtotal(rows), TotalItems(rows), |rows|)
  }

  // ----- catalog checks -----

  predicate ActiveProduct(products: map<ProductId, Product>, p: ProductId) {
    p in products && products[p].isActive
  }

  predicate ActiveVariantOf(variants: map<VariantId, Variant>, v: VariantId, p: ProductId) {
    v in variants && variants[v].productId == p && variants[v].isActive
  }

  datatype Validation = Found(product: Product, variant: Option<Variant>) | Invalid(error: string)

  /** `validate_product_and_variant`: the product must be active; a variant, when one is
      asked for, must be active and belong to that product. */
  function ValidateProductAndVariant(products: map<ProductId, Product>, variants: map<VariantId, Variant>,
                                     p: ProductId, v: Option<VariantId>): (r: Validation)
    ensures r.Found? <==> ActiveProduct(products, p) && (v.Some? ==> ActiveVariantOf(variants, v.value, p))
    ensures r.Found? ==> r.product == products[p]
    ensures r.Found? ==> r.variant == if v.Some? then Some(variants[v.value]) else None
    ensures !ActiveProduct(products, p) ==> r == Invalid("Product not found")
    ensures ActiveProduct(products, p) && r.Invalid? ==> r.error == "Variant not found or does not belong to the product"
  {
    if !ActiveProduct(products, p) then Invalid("Product not found")
    else if v.Some? && !ActiveVariantOf(variants, v.value, p) then
      Invalid("Variant not found or does not belong to the product")
    else Found(products[p], if v.Some? then Some(variants[v.value]) else None)
  }

  /** The stock an addition is checked against: the variant's when there is one. */
  function StockOf(product: Product, variant: Option<Variant>): int {
    if variant.Some? then variant.value.stockQuantity else product.stockQuantity
  }

  /** The unit price stored with a new row: the variant's price when it has a truthy one,
      otherwise the product's. */
  function PriceOf(product: Product, variant: Option<Variant>): (r: int)
    ensures variant.None? ==> r == product.price
    ensures variant.Some? && variant.value.price.Some? && variant.value.price.value != 0 ==>
      r == variant.value.price.value
    ensures variant.Some? && (variant.value.price.None? || variant.value.price == Some(0)) ==>
      r == product.price
  {
    if variant.Some? && Truthy(variant.value.price) then variant.value.price.value else product.price
  }

  // ----- add_to_cart -----

  /** What `add_to_cart` decides before it looks at any cart. */
  datatype AddCheck =
    | Reject(status: int, error: string)
    | Accept(productId: ProductId, quantity: int, available: int, unitPrice: int)

  predicate AddQuantityOk(q: QuantityArg) {
    var n := if q.Absent? then Some(1) else AsInt(q);
    n.Some? && 1 <= n.value <= 10
  }

  /** The checks of `add_to_cart`, in their order: product_id present, quantity an integer
      in 1..10 (default 1), product and variant valid, enough stock for this addition. */
  function CheckAdd(products: map<ProductId, Product>, variants: map<VariantId, Variant>,
                    productId: Option<ProductId>, variantId: Option<VariantId>, quantity: QuantityArg): (r: AddCheck)
    ensures productId.None? ==> r == Reject(400, "product_id is required")
    ensures productId.Some? && !AddQuantityOk(quantity) ==> r.Reject? && r.status == 400
    ensures r.Reject? ==> r.status == 400 || r.status == 404
    ensures r.Reject? && r.status == 404 ==>
      ValidateProductAndVariant(products, variants, productId.value, variantId).Invalid?
    ensures r.Accept? ==>
      && productId == Some(r.productId)
      && AddQuantityOk(quantity)
      && (quantity.Absent? ==> r.quantity == 1)
      && 1 <= r.quantity <= 10 && r.quantity <= r.available
      && ActiveProduct(products, r.productId)
      && (variantId.Some? ==> ActiveVariantOf(variants, variantId.value, r.productId))
    ensures r.Accept? ==>
      var found := ValidateProductAndVariant(products, variants, r.productId, variantId);
      r.available == StockOf(found.product, found.variant) && r.unitPrice == PriceOf(found.product, found.variant)
  {
    if productId.None? then Reject(400, "product_id is required")
    else
      var n := if quantity.Absent? then Some(1) else AsInt(quantity);
      if n.None? || n.value <= 0 then Reject(400, "Quantity must be an integer and greater than 0")
      else if n.value > 10 then Reject(400, "Maximum quantity allowed: 10")
      else match ValidateProductAndVariant(products, variants, productId.value, variantId)
        case Invalid(e) => Reject(404, e)
        case Found(product, variant) =>
          var available := StockOf(product, variant);
          if available < n.value then Reject(400, "Not enough stock available")
          else Accept(productId.value, n.value, available, PriceOf(product, variant))
  }

  /** An addition is accepted exactly when every check holds. */
  lemma CheckAddAcceptsExactly(products: map<ProductId, Product>, variants: map<VariantId, Variant>,
                               p: ProductId, v: Option<VariantId>, quantity: QuantityArg)
    ensures CheckAdd(products, variants, Some(p), v, quantity).Accept? <==>
      && AddQuantityOk(quantity)
      && ValidateProductAndVariant(products, variants, p, v).Found?
      && (var found := ValidateProductAndVariant(products, variants, p, v);
          var n := if quantity.Absent? then 1 else AsInt(quantity).value;
          n <= StockOf(found.product, found.variant))
  {
  }

  /** The quantity is checked before the catalog is consulted: with a bad quantity the
      answer is the same whatever the catalog holds. */
  lemma QuantityCheckedBeforeCatalog(products: map<ProductId, Product>, variants: map<VariantId, Variant>,
                                     products': map<ProductId, Product>, variants': map<VariantId, Variant>,
                                     p: ProductId, v: Option<VariantId>, quantity: QuantityArg)
    requires !AddQuantityOk(quantity)
    ensures CheckAdd(products, variants, Some(p), v, quantity) == CheckAdd(products', variants', Some(p), v, quantity)
  {
  }

  // ----- update_cart_item and remove_from_cart -----

  /** The permission test of `update_cart_item` and `remove_from_cart`: it refuses only when
      the cart's user id differs from the caller's AND its session id differs from the
      caller's, so two absent ids count as a match. */
  predicate MayModify(cart: Cart, user: Option<UserId>, session: Option<SessionId>) {
    cart.userId == user || cart.sessionId == session
  }

  /** For a cart with one owner the permission test depends only on the kind of caller:
      every logged-in caller, and every anonymous caller without a cookie, may change every
      user's cart; every anonymous caller may change every guest cart. */
  lemma PermissionByKindOfCaller(cart: Cart, user: Option<UserId>, cookie: Option<SessionId>)
    requires OneOwner(cart)
    ensures cart.userId.Some? ==> (MayModify(cart, user, CallerSession(user, cookie)) <==> user.Some? || cookie.None?)
    ensures cart.sessionId.Some? ==> (MayModify(cart, user, CallerSession(user, cookie)) <==> user.None?)
  {
  }

  /** What `update_cart_item` and `remove_from_cart` decide to do. */
  datatype Plan = Fail(status: int, error: string) | Delete(index: nat) | SetQuantity(index: nat, quantity: int)

  /** The stock `update_cart_item` checks a row against: the row's variant when it has one,
      otherwise its product; `None` where the product is missing and reading its stock
      raises. */
  function RowStock(products: map<ProductId, Product>, variants: map<VariantId, Variant>, row: CartItem): Option<int> {
    if row.variantId.Some? && row.variantId.value in variants then Some(variants[row.variantId.value].stockQuantity)
    else if row.productId in products then Some(products[row.productId].stockQuantity)
    else None
  }

  /** The owner check shared by both handlers; a row whose cart is missing is refused too. */
  predicate RowOwnedBy(carts: seq<Cart>, row: CartItem, user: Option<UserId>, cookie: Option<SessionId>) {
    var c := FindCart(carts, row.cartId);
    c.Some? && MayModify(carts[c.value], user, CallerSession(user, cookie))
  }

  predicate UpdateQuantityOk(q: QuantityArg) {
    var n := AsInt(q);
    n.Some? && 0 <= n.value <= 10
  }

  /** The checks of `update_cart_item`, in their order. */
  function UpdatePlan(products: map<ProductId, Product>, variants: map<VariantId, Variant>,
                      carts: seq<Cart>, items: seq<CartItem>,
                      itemId: Option<ItemId>, quantity: QuantityArg,
                      user: Option<UserId>, cookie: Option<SessionId>): (r: Plan)
    ensures itemId.None? || quantity.Absent? ==> r == Fail(400, "item_id and quantity are required")
    ensures !UpdateQuantityOk(quantity) ==> r.Fail? && r.status == 400
    ensures r.Delete? ==>
      && itemId.Some? && r.index < |items| && items[r.index].id == itemId.value
      && AsInt(quantity) == Some(0) && RowOwnedBy(carts, items[r.index], user, cookie)
    ensures r.SetQuantity? ==>
      && itemId.Some? && r.index < |items| && items[r.index].id == itemId.value
      && AsInt(quantity) == Some(r.quantity) && 1 <= r.quantity <= 10
      && RowOwnedBy(carts, items[r.index], user, cookie)
      && RowStock(products, variants, items[r.index]).Some?
      && r.quantity <= RowStock(products, variants, items[r.index]).value
  {
    if itemId.None? || quantity.Absent? then Fail(400, "item_id and quantity are required")
    else
      var n := AsInt(quantity);
      if n.None? || n.value < 0 then Fail(400, "Quantity must be an integer and greater than 0")
      else if n.value > 10 then Fail(400, "Maximum quantity allowed: 10")
      else match FindItem(items, itemId.value)
        case None => Fail(404, "Item not found")
        case Some(i) =>
          if !RowOwnedBy(carts, items[i], user, cookie) then Fail(403, "Do not have permission to modify this cart")
          else if n.value == 0 then
            if items[i].productId in products then Delete(i) else Fail(500, "Internal Server Error")
          else match RowStock(products, variants, items[i])
            case None => Fail(500, "Internal Server Error")
            case Some(available) =>
              if available < n.value then Fail(400, "Not enough stock available")
              else SetQuantity(i, n.value)
  }

  /** For a well-formed request naming an existing row, `update_cart_item` answers 403
      exactly when the permission test fails, and otherwise deletes the row for quantity 0
      and sets the quantity when the stock allows it. */
  lemma UpdateOutcomes(products: map<ProductId, Product>, variants: map<VariantId, Variant>,
                       carts: seq<Cart>, items: seq<CartItem>,
                       id: ItemId, quantity: QuantityArg, user: Option<UserId>, cookie: Option<SessionId>)
    requires UpdateQuantityOk(quantity)
    requires FindItem(items, id).Some?
    ensures var r := UpdatePlan(products, variants, carts, items, Some(id), quantity, user, cookie);
      var row := items[FindItem(items, id).value];
      && (r == Fail(403, "Do not have permission to modify this cart") <==> !RowOwnedBy(carts, row, user, cookie))
      && (RowOwnedBy(carts, row, user, cookie) && AsInt(quantity) == Some(0) && row.productId in products
          ==> r == Delete(FindItem(items, id).value))
      && (RowOwnedBy(carts, row, user, cookie) && AsInt(quantity).value > 0
          && RowStock(products, variants, row).Some? && AsInt(quantity).value <= RowStock(products, variants, row).value
          ==> r == SetQuantity(FindItem(items, id).value, AsInt(quantity).value))
  {
  }

  /** The checks of `remove_from_cart`, in their order; `itemId` is `None` when the path
      segment is not a UUID. */
  function RemovePlan(products: map<ProductId, Product>, carts: seq<Cart>, items: seq<CartItem>,
                      itemId: Option<ItemId>, user: Option<UserId>, cookie: Option<SessionId>): (r: Plan)
    ensures itemId.None? ==> r == Fail(400, "Invalid UUID")
    ensures itemId.Some? && FindItem(items, itemId.value).None? ==> r == Fail(404, "Item not found on cart")
    ensures itemId.Some? && FindItem(items, itemId.value).Some? ==>
      var row := items[FindItem(items, itemId.value).value];
      (r == Fail(403, "Do not have permission") <==> !RowOwnedBy(carts, row, user, cookie))
    ensures !r.SetQuantity?
    ensures r.Delete? ==>
      itemId.Some? && r.index < |items| && items[r.index].id == itemId.value
      && RowOwnedBy(carts, items[r.index], user, cookie)
  {
    if itemId.None? then Fail(400, "Invalid UUID")
    else match FindItem(items, itemId.value)
      case None => Fail(404, "Item not found on cart")
      case Some(i) =>
        if !RowOwnedBy(carts, items[i], user, cookie) then Fail(403, "Do not have permission")
        else if items[i].productId !in products then Fail(500, "Internal server error")
        else Delete(i)
  }

  // ----- get_cart -----

  /** The rows `get_cart` lists: the join with `products` keeps only rows whose product is
      active. */
  function ListedRows(rows: seq<CartItem>, products: map<ProductId, Product>): (r: seq<CartItem>)
    ensures |r| <= |rows|
    ensures forall x :: x in r <==> x in rows && ActiveProduct(products, x.productId)
  {
    if rows == [] then []
    else (if ActiveProduct(products, rows[0].productId) then [rows[0]] else []) + ListedRows(rows[1..], products)
  }

  /** The totals `get_cart` reports count every row of the cart, so a row whose product is
      no longer active is counted but not listed. */
  lemma {:induction false} HiddenRowsStillCounted(rows: seq<CartItem>, products: map<ProductId, Product>, i: nat)
    requires i < |rows| && !ActiveProduct(products, rows[i].productId)
    ensures |ListedRows(rows, products)| < TotalsOf(rows).itemsCount
  {
    if i > 0 {
      HiddenRowsStillCounted(rows[1..], products, i - 1);
    }
  }

  // ----- the store -----

  class CartStore {
    var carts: seq<Cart>
    var items: seq<CartItem>
    /** Stand-ins for `uuid.uuid4()`: the next unused cart and row ids. */
    var nextCartId: nat
    var nextItemId: nat

    ghost predicate Valid()
      reads this
    {
      StoreInvariant(carts, items, nextCartId, nextItemId)
    }

    constructor ()
      ensures Valid() && carts == [] && items == []
    {
      carts, items := [], [];
      nextCartId, nextItemId := 0, 0;
    }

    /** `get_or_create_cart`: the cart of the user, else of the session, created when
        missing; none when neither is given. */
    method GetOrCreateCart(user: Option<UserId>, session: Option<SessionId>) returns (cart: Option<Cart>)
      requires Valid()
      modifies this
      ensures Valid() && items == old(items) && nextItemId == old(nextItemId)
      ensures cart.None? <==> user.None? && session.None?
      ensures cart.Some? ==> LookupCart(carts, user, session) == cart && cart.value in carts
      ensures carts == CartsAfterGetOrCreate(old(carts), old(nextCartId), user, session)
      ensures nextCartId == old(nextCartId) + if CreatesCart(old(carts), user, session) then 1 else 0
      ensures !CreatesCart(old(carts), user, session) ==> cart == old(LookupCart(carts, user, session))
      ensures CreatesCart(old(carts), user, session) ==>
        cart == Some(NewCart(old(nextCartId), user, session)) && RowsOf(items, cart.value.id) == []
    {
      cart := LookupCart(carts, user, session);
      if !CreatesCart(carts, user, session) {
        return;
      }
      var c := NewCart(nextCartId, user, session);
      NewCartKeepsInvariant(carts, items, nextCartId, nextItemId, user, session);
      LookupFindsNewCart(carts, nextCartId, user, session);
      FreshCartHasNoRows(carts, items, nextCartId, nextItemId);
      carts := carts + [c];
      nextCartId := nextCartId + 1;
      cart := Some(c);
    }

    /** `calculate_cart_totals`. */
    method CalculateCartTotals(cartId: CartId) returns (t: Totals)
      ensures t == TotalsOf(RowsOf(items, cartId))
    {
      var rows := RowsOf(items, cartId);
      var subtotal, totalItems := 0, 0;
      var i := 0;
      while i < |rows|
        invariant 0 <= i <= |rows|
        invariant subtotal == Subtotal(rows[..i]) && totalItems == TotalItems(rows[..i])
      {
        SumsOfPrefix(rows, i);
        subtotal := subtotal + rows[i].unitPrice * rows[i].quantity;
        totalItems := totalItems + rows[i].quantity;
        i := i + 1;
      }
      assert rows[..i] == rows;
      t := Totals(subtotal, totalItems, |rows|);
    }

    /** `get_cart_count`: the number of rows and their summed quantity, (0, 0) without a
        cart. */
    function CartCount(user: Option<UserId>, cookie: Option<SessionId>): (r: (nat, int))
      reads this
      ensures LookupCart(carts, user, CallerSession(user, cookie)).None? ==> r == (0, 0)
      ensures LookupCart(carts, user, CallerSession(user, cookie)).Some? ==>
        var rows := RowsOf(items, LookupCart(carts, user, CallerSession(user, cookie)).value.id);
        r == (|rows|, TotalItems(rows))
    {
      match LookupCart(carts, user, CallerSession(user, cookie))
      case None => (0, 0)
      case Some(c) =>
        var rows := RowsOf(items, c.id);
        (|rows|, TotalItems(rows))
    }

    /** `get_cart`: the caller's cart, created when missing, its listed rows and its
        totals. */
    method GetCart(products: map<ProductId, Product>, user: Option<UserId>, cookie: Option<SessionId>, newSession: SessionId)
      returns (cookie': Option<SessionId>, cartId: CartId, listed: seq<CartItem>, totals: Totals)
      requires Valid()
      modifies this
      ensures Valid() && items == old(items)
      ensures cookie' == if user.Some? then cookie else SessionOrFresh(user, cookie, newSession)
      ensures var c := LookupCart(carts, user, SessionOrFresh(user, cookie, newSession));
        c.Some? && c.value.id == cartId
      ensures carts == CartsAfterGetOrCreate(old(carts), old(nextCartId), user, SessionOrFresh(user, cookie, newSession))
      ensures nextCartId == old(nextCartId) + if CreatesCart(old(carts), user, SessionOrFresh(user, cookie, newSession)) then 1 else 0
      ensures listed == ListedRows(RowsOf(items, cartId), products)
      ensures totals == TotalsOf(RowsOf(items, cartId))
    {
      var session := SessionOrFresh(user, cookie, newSession);
      cookie' := if user.Some? then cookie else session;
      var cart := GetOrCreateCart(user, session);
      cartId := cart.value.id;
      listed := ListedRows(RowsOf(items, cartId), products);
      totals := CalculateCartTotals(cartId);
    }

    /** The step `add_to_cart` and `merge_guest_cart` share: add q to the cart's row for
        (product, variant) when there is one, else insert a row at the given unit price. */
    method AddToRow(cartId: CartId, p: ProductId, v: Option<VariantId>, q: int, unitPrice: int)
      requires Valid() && HasCart(carts, cartId) && q > 0
      modifies this
      ensures Valid() && carts == old(carts) && nextCartId == old(nextCartId)
      ensures items == AddUnits(old(items), cartId, p, v, q, unitPrice, old(nextItemId))
      ensures nextItemId == NextIdAfterAdd(old(items), cartId, p, v, old(nextItemId))
      ensures TotalItems(RowsOf(items, cartId)) == old(TotalItems(RowsOf(items, cartId))) + q
      ensures forall c :: c != cartId ==> RowsOf(items, c) == old(RowsOf(items, c))
    {
      var added := AddUnits(items, cartId, p, v, q, unitPrice, nextItemId);
      AddUnitsKeepsInvariant(items, carts, nextItemId, cartId, p, v, q, unitPrice);
      AddUnitsSum(items, cartId, p, v, q, unitPrice, nextItemId);
      forall c | c != cartId ensures RowsOf(added, c) == RowsOf(items, c) {
        AddUnitsOtherCart(items, cartId, p, v, q, unitPrice, nextItemId, c);
      }
      var found := FindRow(items, cartId, p, v);
      if found.Some? {
        var i := found.value;
        items := items[i := items[i].(quantity := items[i].quantity + q)];
        assert items == added;
      } else {
        items := items + [CartItem(nextItemId, cartId, p, v, q, unitPrice)];
        nextItemId := nextItemId + 1;
        assert items == added;
      }
    }

    /** Deletes the cart at index gi together with all its rows. */
    method DeleteCartAndRows(gi: nat)
      requires Valid() && gi < |carts|
      modifies this
      ensures Valid() && nextCartId == old(nextCartId) && nextItemId == old(nextItemId)
      ensures carts == RemoveAt(old(carts), gi) && items == RowsNotOf(old(items), old(carts)[gi].id)
      ensures forall c :: RowsOf(items, c) == if c == old(carts)[gi].id then [] else old(RowsOf(items, c))
    {
      var g := carts[gi].id;
      CartDeleteKeepsInvariant(carts, items, nextCartId, nextItemId, gi);
      forall c ensures RowsOf(RowsNotOf(items, g), c) == if c == g then [] else RowsOf(items, c) {
        RowsAfterCartDelete(items, g, c);
      }
      items := RowsNotOf(items, g);
      carts := RemoveAt(carts, gi);
    }

    /** `add_to_cart`. */
    method AddToCart(products: map<ProductId, Product>, variants: map<VariantId, Variant>,
                     productId: Option<ProductId>, variantId: Option<VariantId>, quantity: QuantityArg,
                     user: Option<UserId>, cookie: Option<SessionId>, newSession: SessionId)
      returns (status: int, error: string, cookie': Option<SessionId>, cartId: CartId, totals: Totals)
      requires Valid()
      modifies this
      ensures Valid()
      ensures var check := CheckAdd(products, variants, productId, variantId, quantity);
        check.Reject? ==> status == check.status && error == check.error && cookie' == cookie
      ensures CheckAdd(products, variants, productId, variantId, quantity).Reject? ==> unchanged(this)
      ensures status != 200 ==> carts == old(carts) && items == old(items) && nextItemId == old(nextItemId)
      ensures var check := CheckAdd(products, variants, productId, variantId, quantity);
        check.Accept? ==>
          && cookie' == (if user.Some? then cookie else SessionOrFresh(user, cookie, newSession))
          && var c := LookupCart(carts, user, SessionOrFresh(user, cookie, newSession));
             c.Some? && c.value.id == cartId
      ensures CheckAdd(products, variants, productId, variantId, quantity).Accept? ==>
        && carts == CartsAfterGetOrCreate(old(carts), old(nextCartId), user, SessionOrFresh(user, cookie, newSession))
        && nextCartId == old(nextCartId) + if CreatesCart(old(carts), user, SessionOrFresh(user, cookie, newSession)) then 1 else 0
      ensures status == 200 ==>
        CartCount(user, cookie').1 == old(CartCount(user, cookie')).1 + CheckAdd(products, variants, productId, variantId, quantity).quantity
      ensures var check := CheckAdd(products, variants, productId, variantId, quantity);
        check.Accept? ==>
          var found := FindRow(old(items), cartId, check.productId, variantId);
          if found.Some? && old(items)[found.value].quantity + check.quantity > check.available then
            status == 400 && error == "Insufficient stock for the requested quantity"
          else
            status == 200 &&
            items == AddUnits(old(items), cartId, check.productId, variantId, check.quantity, check.unitPrice, old(nextItemId))
      ensures status == 200 ==>
        && CheckAdd(products, variants, productId, variantId, quantity).Accept?
        && TotalItems(RowsOf(items, cartId)) ==
             old(TotalItems(RowsOf(items, cartId))) + CheckAdd(products, variants, productId, variantId, quantity).quantity
        && totals == TotalsOf(RowsOf(items, cartId))
    {
      var check := CheckAdd(products, variants, productId, variantId, quantity);
      cookie', cartId, totals := cookie, 0, Totals(0, 0, 0);
      if check.Reject? {
        return check.status, check.error, cookie', cartId, totals;
      }
      var session := SessionOrFresh(user, cookie, newSession);
      if user.None? {
        cookie' := session;
      }
      status, error, cartId, totals := AddAccepted(check.productId, variantId, check.quantity, check.available, check.unitPrice, user, session);
    }

    /** The part of `add_to_cart` after the checks: the caller's cart is found or created,
        then the addition is refused when it would take the row past the stock, or made. */
    method AddAccepted(p: ProductId, v: Option<VariantId>, q: int, available: int, unitPrice: int,
                       user: Option<UserId>, session: Option<SessionId>)
      returns (status: int, error: string, cartId: CartId, totals: Totals)
      requires Valid() && q > 0 && (user.Some? || session.Some?)
      modifies this
      ensures Valid()
      ensures var c := LookupCart(carts, user, session); c.Some? && c.value.id == cartId
      ensures carts == CartsAfterGetOrCreate(old(carts), old(nextCartId), user, session)
      ensures nextCartId == old(nextCartId) + if CreatesCart(old(carts), user, session) then 1 else 0
      ensures var c := old(LookupCart(carts, user, session));
        && (c.Some? ==> c.value.id == cartId)
        && (c.None? ==> old(RowsOf(items, cartId)) == [])
      ensures var found := FindRow(old(items), cartId, p, v);
        if found.Some? && old(items)[found.value].quantity + q > available then
          && status == 400 && error == "Insufficient stock for the requested quantity"
          && carts == old(carts) && items == old(items) && nextItemId == old(nextItemId)
        else
          && status == 200
          && items == AddUnits(old(items), cartId, p, v, q, unitPrice, old(nextItemId))
          && TotalItems(RowsOf(items, cartId)) == old(TotalItems(RowsOf(items, cartId))) + q
          && totals == TotalsOf(RowsOf(items, cartId))
    {
      totals := Totals(0, 0, 0);
      var cart := GetOrCreateCart(user, session);
      cartId := cart.value.id;
      var found := FindRow(items, cartId, p, v);
      if found.Some? && available < items[found.value].quantity + q {
        // An existing row means the cart existed already: nothing was created.
        RowsOfMembers(items, cartId);
        assert items[found.value] in RowsOf(items, cartId);
        return 400, "Insufficient stock for the requested quantity", cartId, totals;
      }
      var j :| 0 <= j < |carts| && carts[j] == cart.value;
      AddToRow(cartId, p, v, q, unitPrice);
      totals := CalculateCartTotals(cartId);
      status, error := 200, "";
    }

    /** Deletes row i and reports the totals of the cart it belonged to. */
    method DeleteRow(i: nat) returns (totals: Totals)
      requires Valid() && i < |items|
      modifies this
      ensures Valid() && carts == old(carts) && nextCartId == old(nextCartId) && nextItemId == old(nextItemId)
      ensures items == RemoveAt(old(items), i)
      ensures var c := old(items)[i].cartId;
        && TotalItems(RowsOf(items, c)) == old(TotalItems(RowsOf(items, c))) - old(items)[i].quantity
        && totals == TotalsOf(RowsOf(items, c))
    {
      var c := items[i].cartId;
      RemoveKeepsInvariant(items, carts, nextItemId, i);
      RowsAfterRemoval(items, i, c);
      items := RemoveAt(items, i);
      totals := CalculateCartTotals(c);
    }

    /** Sets the quantity of row i to q and reports the totals of its cart. */
    method SetRowQuantity(i: nat, q: int) returns (totals: Totals)
      requires Valid() && i < |items| && q > 0
      modifies this
      ensures Valid() && carts == old(carts) && nextCartId == old(nextCartId) && nextItemId == old(nextItemId)
      ensures items == old(items)[i := old(items)[i].(quantity := q)]
      ensures var c := old(items)[i].cartId;
        && TotalItems(RowsOf(items, c)) == old(TotalItems(RowsOf(items, c))) - old(items)[i].quantity + q
        && totals == TotalsOf(RowsOf(items, c))
    {
      var row := items[i];
      QuantityChangeKeepsInvariant(items, carts, nextItemId, i, q);
      RowsAfterQuantityChange(items, i, q, row.cartId);
      items := items[i := row.(quantity := q)];
      totals := CalculateCartTotals(row.cartId);
    }

    /** `update_cart_item`. */
    method UpdateCartItem(products: map<ProductId, Product>, variants: map<VariantId, Variant>,
                          itemId: Option<ItemId>, quantity: QuantityArg,
                          user: Option<UserId>, cookie: Option<SessionId>)
      returns (status: int, error: string, totals: Totals)
      requires Valid()
      modifies this
      ensures Valid() && carts == old(carts) && nextCartId == old(nextCartId) && nextItemId == old(nextItemId)
      ensures var plan := old(UpdatePlan(products, variants, carts, items, itemId, quantity, user, cookie));
        && (plan.Fail? ==> status == plan.status && error == plan.error && items == old(items))
        && (plan.Delete? ==> status == 200 && items == RemoveAt(old(items), plan.index))
        && (plan.SetQuantity? ==>
              && items == old(items)[plan.index := old(items)[plan.index].(quantity := plan.quantity)]
              && status == (if old(items)[plan.index].productId in products then 200 else 500))
      ensures var plan := old(UpdatePlan(products, variants, carts, items, itemId, quantity, user, cookie));
        plan.Delete? || plan.SetQuantity? ==>
          var row := old(items)[plan.index];
          && TotalItems(RowsOf(items, row.cartId)) ==
               old(TotalItems(RowsOf(items, row.cartId))) - row.quantity + (if plan.Delete? then 0 else plan.quantity)
          && totals == TotalsOf(RowsOf(items, row.cartId))
    {
      var plan := UpdatePlan(products, variants, carts, items, itemId, quantity, user, cookie);
      totals := Totals(0, 0, 0);
      match plan
      case Fail(s, e) =>
        status, error := s, e;
      case Delete(i) =>
        totals := DeleteRow(i);
        status, error := 200, "";
      case SetQuantity(i, q) =>
        var row := items[i];
        totals := SetRowQuantity(i, q);
        // The success message reads the product's name after the commit.
        if row.productId in products {
          status, error := 200, "";
        } else {
          status, error := 500, "Internal Server Error";
        }
    }

    /** `remove_from_cart`. */
    method RemoveFromCart(products: map<ProductId, Product>, itemId: Option<ItemId>,
                          user: Option<UserId>, cookie: Option<SessionId>)
      returns (status: int, error: string, totals: Totals)
      requires Valid()
      modifies this
      ensures Valid() && carts == old(carts) && nextCartId == old(nextCartId) && nextItemId == old(nextItemId)
      ensures var plan := old(RemovePlan(products, carts, items, itemId, user, cookie));
        && (plan.Fail? ==> status == plan.status && error == plan.error && items == old(items))
        && (plan.Delete? ==>
              var row := old(items)[plan.index];
              && status == 200 && items == RemoveAt(old(items), plan.index)
              && TotalItems(RowsOf(items, row.cartId)) == old(TotalItems(RowsOf(items, row.cartId))) - row.quantity
              && totals == TotalsOf(RowsOf(items, row.cartId)))
    {
      var plan := RemovePlan(products, carts, items, itemId, user, cookie);
      totals := Totals(0, 0, 0);
      if plan.Fail? {
        return plan.status, plan.error, totals;
      }
      totals := DeleteRow(plan.index);
      status, error := 200, "";
    }

    /** `clear_cart`: deletes every row of the caller's cart and reports how many there
        were. */
    method ClearCart(user: Option<UserId>, cookie: Option<SessionId>) returns (status: int, error: string, removed: nat)
      requires Valid()
      modifies this
      ensures Valid() && carts == old(carts) && nextCartId == old(nextCartId) && nextItemId == old(nextItemId)
      ensures var c := old(LookupCart(carts, user, CallerSession(user, cookie)));
        && (c.None? ==> status == 404 && error == "Cart not found" && items == old(items))
        && (c.Some? ==>
              && status == 200
              && removed == |old(RowsOf(items, c.value.id))|
              && items == RowsNotOf(old(items), c.value.id)
              && RowsOf(items, c.value.id) == []
              && forall other :: other != c.value.id ==> RowsOf(items, other) == old(RowsOf(items, other)))
      ensures status == 200 ==> removed == old(CartCount(user, cookie)).0
      ensures CartCount(user, cookie) == (0, 0)
    {
      var cart := LookupCart(carts, user, CallerSession(user, cookie));
      if cart.None? {
        return 404, "Cart not found", 0;
      }
      var c := cart.value;
      removed := |RowsOf(items, c.id)|;
      var j :| 0 <= j < |carts| && carts[j] == c;
      RowsDeleteKeepsInvariant(items, carts, carts, nextItemId, c.id);
      forall other ensures RowsOf(RowsNotOf(items, c.id), other) == if other == c.id then [] else RowsOf(items, other) {
        RowsAfterCartDelete(items, c.id, other);
      }
      items := RowsNotOf(items, c.id);
      status, error := 200, "";
    }

    /** The loop of `merge_guest_cart`: adds the units of each given row to cart `target`,
        into its matching row or as a copy keeping the row's unit price. */
    method MergeRows(rows: seq<CartItem>, target: CartId) returns (merged: nat)
      requires Valid() && HasCart(carts, target) && AllPositive(rows)
      modifies this
      ensures Valid() && carts == old(carts) && nextCartId == old(nextCartId)
      ensures (items, nextItemId) == MergeAll(old(items), rows, target, old(nextItemId))
      ensures merged == |rows|
      ensures TotalItems(RowsOf(items, target)) == old(TotalItems(RowsOf(items, target))) + TotalItems(rows)
      ensures forall c :: c != target ==> RowsOf(items, c) == old(RowsOf(items, c))
    {
      ghost var items0, next0 := items, nextItemId;
      merged := 0;
      var k := 0;
      while k < |rows|
        invariant Valid() && carts == old(carts) && nextCartId == old(nextCartId)
        invariant 0 <= k <= |rows| && merged == k
        invariant (items, nextItemId) == MergeAll(items0, rows[..k], target, next0)
      {
        var g := rows[k];
        MergeAllStep(items0, rows, k, target, next0);
        AddToRow(target, g.productId, g.variantId, g.quantity, g.unitPrice);
        merged := merged + 1;
        k := k + 1;
      }
      assert rows[..k] == rows;
      MergeAllSum(items0, rows, target, next0);
      forall c | c != target ensures RowsOf(items, c) == RowsOf(items0, c) {
        MergeAllOtherCarts(items0, rows, target, next0, c);
      }
    }

    /** The first part of `merge_guest_cart`: finds or creates the user's cart and adds the
        rows of the guest cart at index gi to it. */
    method MergeIntoUserCart(gi: nat, user: UserId) returns (merged: nat, userCartId: CartId, ghost ui: nat)
      requires Valid() && gi < |carts| && carts[gi].sessionId.Some?
      modifies this
      ensures Valid() && gi < |carts| && carts[gi] == old(carts)[gi]
      ensures ui < |carts| && ui != gi && carts[ui].userId == Some(user) && carts[ui].id == userCartId
      ensures merged == |old(RowsOf(items, carts[gi].id))|
      ensures TotalItems(RowsOf(items, userCartId)) ==
        old(TotalItems(RowsOf(items, userCartId))) + old(TotalItems(RowsOf(items, carts[gi].id)))
      ensures forall c :: c != userCartId ==> RowsOf(items, c) == old(RowsOf(items, c))
      ensures (items, nextItemId) == MergeAll(old(items), old(RowsOf(items, carts[gi].id)), userCartId, old(nextItemId))
      ensures var u := old(LookupCart(carts, Some(user), None));
        && (u.Some? ==> userCartId == u.value.id)
        && (u.None? ==> userCartId == old(nextCartId) && old(RowsOf(items, userCartId)) == [])
      ensures carts == CartsAfterGetOrCreate(old(carts), old(nextCartId), Some(user), None)
      ensures nextCartId == old(nextCartId) + if CreatesCart(old(carts), Some(user), None) then 1 else 0
    {
      var guest := carts[gi];
      var userCart := GetOrCreateCart(Some(user), None);
      var uc := userCart.value;
      userCartId := uc.id;
      // Creating the user's cart appends it, so the guest cart keeps its index.
      assert carts[gi] == guest;
      DistinctCartsHaveDistinctIds(carts, nextCartId, uc, guest);
      ui :| 0 <= ui < |carts| && carts[ui] == uc;
      var guestRows := RowsOf(items, guest.id);
      assert AllPositive(guestRows) by {
        RowsOfMembers(items, guest.id);
        forall i | 0 <= i < |guestRows| ensures guestRows[i].quantity > 0 {
          assert guestRows[i] in items;
        }
      }
      merged := MergeRows(guestRows, uc.id);
    }

    /** `merge_guest_cart`: moves the rows of the guest cart into the user's cart, adding to
        a matching row or copying the row, with no stock check and no cap, then deletes the
        guest cart and its rows. */
    method MergeGuestCart(user: UserId, guestSession: Option<SessionId>)
      returns (status: int, error: string, merged: nat, userCartId: CartId, totals: Totals)
      requires Valid()
      modifies this
      ensures Valid()
      ensures guestSession.None? ==> status == 400 && unchanged(this)
      ensures guestSession.Some? && old(FindSessionCart(carts, guestSession.value)).None? ==> status == 404 && unchanged(this)
      ensures guestSession.Some? && old(FindSessionCart(carts, guestSession.value)).Some? ==>
        var guest := old(carts)[old(FindSessionCart(carts, guestSession.value)).value];
        && status == 200
        && merged == |old(RowsOf(items, guest.id))|
        && TotalItems(RowsOf(items, userCartId)) ==
             old(TotalItems(RowsOf(items, userCartId))) + old(TotalItems(RowsOf(items, guest.id)))
        && RowsOf(items, guest.id) == []
        && FindSessionCart(carts, guestSession.value).None?
        && LookupCart(carts, Some(user), None).Some? && LookupCart(carts, Some(user), None).value.id == userCartId
        && (forall c :: c != guest.id && c != userCartId ==> RowsOf(items, c) == old(RowsOf(items, c)))
        && totals == TotalsOf(RowsOf(items, userCartId))
        && CartCount(Some(user), None).1 == old(CartCount(Some(user), None)).1 + old(TotalItems(RowsOf(items, guest.id)))
      ensures guestSession.Some? && old(FindSessionCart(carts, guestSession.value)).Some? ==>
        var gi := old(FindSessionCart(carts, guestSession.value)).value;
        var guest := old(carts)[gi];
        var u := old(LookupCart(carts, Some(user), None));
        var merge := MergeAll(old(items), old(RowsOf(items, guest.id)), userCartId, old(nextItemId));
        && userCartId == (if u.Some? then u.value.id else old(nextCartId))
        && carts == RemoveAt(CartsAfterGetOrCreate(old(carts), old(nextCartId), Some(user), None), gi)
        && nextCartId == old(nextCartId) + (if u.Some? then 0 else 1)
        && items == RowsNotOf(merge.0, guest.id) && nextItemId == merge.1
    {
      merged, userCartId, totals := 0, 0, Totals(0, 0, 0);
      if guestSession.None? {
        return 400, "guest_session_id es requerido", merged, userCartId, totals;
      }
      var gi := FindSessionCart(carts, guestSession.value);
      if gi.None? {
        return 404, "Carrito de invitado no encontrado", merged, userCartId, totals;
      }
      ghost var ui: nat;
      ghost var guestRows := RowsOf(items, carts[gi.value].id);
      ghost var items0, nextItem0 := items, nextItemId;
      merged, userCartId, ui := MergeIntoUserCart(gi.value, user);
      ghost var carts1, items1 := carts, items;
      assert (items1, nextItemId) == MergeAll(items0, guestRows, userCartId, nextItem0);
      SessionCartGone(carts, nextCartId, gi.value, guestSession.value);
      UserCartSurvivesRemoval(carts, nextCartId, gi.value, ui);
      DeleteCartAndRows(gi.value);
      assert carts == RemoveAt(carts1, gi.value) && items == RowsNotOf(items1, carts1[gi.value].id);
      totals := CalculateCartTotals(userCartId);
      status, error := 200, "";
    }
  }
}
