/** The `Cart` and `CartItem` rows (app/models/cart.py, app/models/cart_item.py) and the sums
    the cart derives from its items. Unit prices are exact integer cents (`Numeric(10, 2)`). */
module CartModel {
  import opened Wrappers
  import opened Ids

  /** A cart belongs to a logged-in user or to an anonymous session. */
  datatype Cart = Cart(id: CartId, userId: Option<UserId>, sessionId: Option<SessionId>)

  /** A cart row: cart, product, quantity and unit price are required; the variant is
      optional. The unit price is the one captured when the row was created. */
  datatype CartItem = CartItem(
    id: ItemId,
    cartId: CartId,
    productId: ProductId,
    variantId: Option<VariantId>,
    quantity: int,
    unitPrice: int)

  /** `CartItem.total_price`: one unit costs the unit price, no units cost nothing, and
      with a non-negative price and quantity the total is never negative. */
  function TotalPrice(it: CartItem): (r: int)
    ensures it.quantity == 1 ==> r == it.unitPrice
    ensures it.quantity == 0 ==> r == 0
    ensures it.unitPrice >= 0 && it.quantity >= 0 ==> r >= 0
  {
    it.unitPrice * it.quantity
  }

  predicate AllPositive(rows: seq<CartItem>) {
    forall i :: 0 <= i < |rows| ==> rows[i].quantity > 0
  }

  /** `Cart.total_items`: the sum of the rows' quantities. */
  function TotalItems(rows: seq<CartItem>): (n: int)
    ensures AllPositive(rows) ==> n >= |rows|
  {
    if rows == [] then 0 else TotalItems(rows[..|rows| - 1]) + rows[|rows| - 1].quantity
  }

  /** `Cart.subtotal`: the sum of the rows' total prices. */
  function Subtotal(rows: seq<CartItem>): int {
    if rows == [] then 0 else Subtotal(rows[..|rows| - 1]) + TotalPrice(rows[|rows| - 1])
  }

  lemma {:induction false} SumsAppend(a: seq<CartItem>, b: seq<CartItem>)
    ensures TotalItems(a + b) == TotalItems(a) + TotalItems(b)
    ensures Subtotal(a + b) == Subtotal(a) + Subtotal(b)
    decreases |b|
  {
    if b == [] {
      assert a + b == a;
    } else {
      var b' := b[..|b| - 1];
      assert (a + b)[..|a + b| - 1] == a + b';
      SumsAppend(a, b');
    }
  }

  /** An empty cart has no items and a zero subtotal; with non-negative prices the subtotal
      is never negative, and no row costs more than the whole cart. */
  lemma {:induction false} SubtotalBounds(rows: seq<CartItem>)
    ensures rows == [] ==> TotalItems(rows) == 0 && Subtotal(rows) == 0
    ensures (forall i :: 0 <= i < |rows| ==> rows[i].unitPrice >= 0 && rows[i].quantity >= 0) ==>
      Subtotal(rows) >= 0 && forall i :: 0 <= i < |rows| ==> TotalPrice(rows[i]) <= Subtotal(rows)
  {
    if rows != [] {
      var k := |rows| - 1;
      SubtotalBounds(rows[..k]);
      assert forall i :: 0 <= i < k ==> rows[..k][i] == rows[i];
    }
  }

  lemma SumsSingleton(row: CartItem)
    ensures TotalItems([row]) == row.quantity && Subtotal([row]) == TotalPrice(row)
  {
    assert [row][..0] == [];
  }

  /** The sums over a prefix grow one row at a time, as a loop over the rows computes them. */
  lemma SumsOfPrefix(rows: seq<CartItem>, k: nat)
    requires k < |rows|
    ensures TotalItems(rows[..k + 1]) == TotalItems(rows[..k]) + rows[k].quantity
    ensures Subtotal(rows[..k + 1]) == Subtotal(rows[..k]) + TotalPrice(rows[k])
  {
    assert rows[..k + 1][..k] == rows[..k];
  }

  /** Splitting the rows around index i. */
  lemma SumsAround(rows: seq<CartItem>, i: nat)
    requires i < |rows|
    ensures TotalItems(rows) == TotalItems(rows[..i]) + rows[i].quantity + TotalItems(rows[i + 1..])
    ensures Subtotal(rows) == Subtotal(rows[..i]) + TotalPrice(rows[i]) + Subtotal(rows[i + 1..])
  {
    var before, after := rows[..i], rows[i + 1..];
    assert rows == (before + [rows[i]]) + after;
    SumsAppend(before + [rows[i]], after);
    SumsAppend(before, [rows[i]]);
    SumsSingleton(rows[i]);
  }

  /** Changing one row's quantity changes the total by exactly the difference. */
  lemma SumsAfterQuantityChange(rows: seq<CartItem>, i: nat, q: int)
    requires i < |rows|
    ensures TotalItems(rows[i := rows[i].(quantity := q)]) == TotalItems(rows) - rows[i].quantity + q
    ensures Subtotal(rows[i := rows[i].(quantity := q)]) == Subtotal(rows) - TotalPrice(rows[i]) + rows[i].unitPrice * q
  {
    var rows' := rows[i := rows[i].(quantity := q)];
    SumsAround(rows, i);
    SumsAround(rows', i);
    assert rows'[..i] == rows[..i] && rows'[i + 1..] == rows[i + 1..];
  }

  /** Deleting one row takes exactly its quantity and its total price out of the sums. */
  lemma SumsAfterRemoval(rows: seq<CartItem>, i: nat)
    requires i < |rows|
    ensures TotalItems(rows[..i] + rows[i + 1..]) == TotalItems(rows) - rows[i].quantity
    ensures Subtotal(rows[..i] + rows[i + 1..]) == Subtotal(rows) - TotalPrice(rows[i])
  {
    SumsAround(rows, i);
    SumsAppend(rows[..i], rows[i + 1..]);
  }

  /** The JSON view `CartItem.to_dict` builds (prices kept in exact cents). */
  datatype ItemView = ItemView(
    id: ItemId,
    productId: ProductId,
    variantId: Option<VariantId>,
    productName: string,
    quantity: int,
    unitPrice: int,
    totalPrice: int)

  /** `CartItem.to_dict`: the variant id is null exactly when the row has no variant, and the
      reported total price is the row's unit price times its quantity. */
  function ItemToDict(it: CartItem, productName: string): (v: ItemView)
    ensures v.variantId.None? <==> it.variantId.None?
    ensures v.quantity == it.quantity && v.unitPrice == it.unitPrice
    ensures v.totalPrice == v.unitPrice * v.quantity
  {
    ItemView(it.id, it.productId, it.variantId, productName, it.quantity, it.unitPrice, TotalPrice(it))
  }

  /** The JSON view `Cart.to_dict` builds. */
  datatype CartView = CartView(id: CartId, totalItems: int, subtotal: int, items: seq<ItemView>)

  /** `Cart.to_dict`, given the cart's rows in order and the product names. */
  function CartToDict(cart: Cart, rows: seq<CartItem>, names: ProductId -> string): (v: CartView)
    ensures v.id == cart.id
    ensures |v.items| == |rows|
    ensures forall i :: 0 <= i < |rows| ==> v.items[i] == ItemToDict(rows[i], names(rows[i].productId))
  {
    CartView(cart.id, TotalItems(rows), Subtotal(rows),
      seq(|rows|, i requires 0 <= i < |rows| => ItemToDict(rows[i], names(rows[i].productId))))
  }

  function ViewQuantities(vs: seq<ItemView>): int {
    if vs == [] then 0 else ViewQuantities(vs[..|vs| - 1]) + vs[|vs| - 1].quantity
  }

  function ViewTotals(vs: seq<ItemView>): int {
    if vs == [] then 0 else ViewTotals(vs[..|vs| - 1]) + vs[|vs| - 1].totalPrice
  }

  lemma {:induction false} ViewSums(rows: seq<CartItem>, vs: seq<ItemView>, names: ProductId -> string)
    requires |vs| == |rows|
    requires forall i :: 0 <= i < |rows| ==> vs[i] == ItemToDict(rows[i], names(rows[i].productId))
    ensures ViewQuantities(vs) == TotalItems(rows)
    ensures ViewTotals(vs) == Subtotal(rows)
  {
    if rows != [] {
      ViewSums(rows[..|rows| - 1], vs[..|vs| - 1], names);
    }
  }

  /** The cart's view is self-consistent: its `total_items` is the sum of the listed items'
      quantities and its `subtotal` the sum of their `total_price` entries. */
  lemma CartToDictConsistent(cart: Cart, rows: seq<CartItem>, names: ProductId -> string)
    ensures CartToDict(cart, rows, names).totalItems == ViewQuantities(CartToDict(cart, rows, names).items)
    ensures CartToDict(cart, rows, names).subtotal == ViewTotals(CartToDict(cart, rows, names).items)
  {
    ViewSums(rows, CartToDict(cart, rows, names).items, names);
  }
}
