/** The queries the cart handlers run against the `carts` and `cart_items` tables
    (`filter_by(...).first()`, `filter_by(...).all()`, `filter_by(...).delete()`), the
    invariants the tables keep, and the facts about them the handlers' proofs use. */
module CartQueries {
  import opened Wrappers
  import opened Ids
  import opened CartModel

  // ----- lookups -----

  /** `Cart.query.filter_by(user_id=u).first()`, as an index into the table. */
  function FindUserCart(carts: seq<Cart>, u: UserId): (r: Option<nat>)
    ensures r.Some? ==> r.value < |carts| && carts[r.value].userId == Some(u)
    ensures r.Some? ==> forall j :: 0 <= j < r.value ==> carts[j].userId != Some(u)
    ensures r.None? <==> forall j :: 0 <= j < |carts| ==> carts[j].userId != Some(u)
  {
    if carts == [] then None
    else if carts[0].userId == Some(u) then Some(0)
    else match FindUserCart(carts[1..], u)
      case None => None
      case Some(k) => Some(k + 1)
  }

  /** `Cart.query.filter_by(session_id=s).first()`, as an index into the table. */
  function FindSessionCart(carts: seq<Cart>, s: SessionId): (r: Option<nat>)
    ensures r.Some? ==> r.value < |carts| && carts[r.value].sessionId == Some(s)
    ensures r.Some? ==> forall j :: 0 <= j < r.value ==> carts[j].sessionId != Some(s)
    ensures r.None? <==> forall j :: 0 <= j < |carts| ==> carts[j].sessionId != Some(s)
  {
    if carts == [] then None
    else if carts[0].sessionId == Some(s) then Some(0)
    else match FindSessionCart(carts[1..], s)
      case None => None
      case Some(k) => Some(k + 1)
  }

  /** The cart lookup shared by `get_or_create_cart`, `clear_cart` and `get_cart_count`:
      by user id when there is one, else by session id, else nothing. */
  function LookupCart(carts: seq<Cart>, user: Option<UserId>, session: Option<SessionId>): (r: Option<Cart>)
    ensures r.Some? ==> r.value in carts
    ensures user.Some? ==> (r.Some? <==> exists j :: 0 <= j < |carts| && carts[j].userId == user)
    ensures user.Some? && r.Some? ==> r.value.userId == user
    ensures user.None? && session.Some? ==> (r.Some? <==> exists j :: 0 <= j < |carts| && carts[j].sessionId == session)
    ensures user.None? && session.Some? && r.Some? ==> r.value.sessionId == session
    ensures user.None? && session.None? ==> r.None?
  {
    if user.Some? then
      match FindUserCart(carts, user.value)
      case None => None
      case Some(i) => Some(carts[i])
    else if session.Some? then
      match FindSessionCart(carts, session.value)
      case None => None
      case Some(i) => Some(carts[i])
    else None
  }

  /** The cart `get_or_create_cart` inserts: owned by the user when there is one, else by the
      session. */
  function NewCart(id: CartId, user: Option<UserId>, session: Option<SessionId>): Cart {
    if user.Some? then Cart(id, user, None) else Cart(id, None, session)
  }

  /** Whether `get_or_create_cart` inserts a cart: the caller has an identity that owns none. */
  predicate CreatesCart(carts: seq<Cart>, user: Option<UserId>, session: Option<SessionId>) {
    (user.Some? || session.Some?) && LookupCart(carts, user, session).None?
  }

  /** The cart table after `get_or_create_cart`: a new cart for the identity is appended
      when it creates one, and nothing changes otherwise. */
  function CartsAfterGetOrCreate(carts: seq<Cart>, nextCartId: nat, user: Option<UserId>, session: Option<SessionId>): seq<Cart> {
    if CreatesCart(carts, user, session) then carts + [NewCart(nextCartId, user, session)] else carts
  }

  /** After a cart for an identity has been appended to a table that had none, the lookup
      finds exactly that cart. */
  lemma LookupFindsNewCart(carts: seq<Cart>, id: CartId, user: Option<UserId>, session: Option<SessionId>)
    requires user.Some? || session.Some?
    requires LookupCart(carts, user, session).None?
    ensures LookupCart(carts + [NewCart(id, user, session)], user, session) == Some(NewCart(id, user, session))
  {
    var carts' := carts + [NewCart(id, user, session)];
    if user.Some? {
      var r := FindUserCart(carts', user.value);
      assert carts'[|carts|].userId == user;
      assert r.Some? && r.value == |carts| by {
        forall j | 0 <= j < |carts| ensures carts'[j].userId != user {
          assert carts'[j] == carts[j];
        }
      }
    } else {
      var r := FindSessionCart(carts', session.value);
      assert carts'[|carts|].sessionId == session;
      assert r.Some? && r.value == |carts| by {
        forall j | 0 <= j < |carts| ensures carts'[j].sessionId != session {
          assert carts'[j] == carts[j];
        }
      }
    }
  }

  /** `Cart.query.filter_by(id=id).first()`, as an index into the table. */
  function FindCart(carts: seq<Cart>, id: CartId): (r: Option<nat>)
    ensures r.Some? ==> r.value < |carts| && carts[r.value].id == id
    ensures r.None? <==> forall j :: 0 <= j < |carts| ==> carts[j].id != id
  {
    if carts == [] then None
    else if carts[0].id == id then Some(0)
    else match FindCart(carts[1..], id)
      case None => None
      case Some(k) => Some(k + 1)
  }

  /** `CartItem.query.filter_by(id=id).first()`, as an index into the table. */
  function FindItem(items: seq<CartItem>, id: ItemId): (r: Option<nat>)
    ensures r.Some? ==> r.value < |items| && items[r.value].id == id
    ensures r.None? <==> forall j :: 0 <= j < |items| ==> items[j].id != id
  {
    if items == [] then None
    else if items[0].id == id then Some(0)
    else match FindItem(items[1..], id)
      case None => None
      case Some(k) => Some(k + 1)
  }

  /** The row key: one row per (cart, product, variant). */
  predicate IsLine(x: CartItem, c: CartId, p: ProductId, v: Option<VariantId>) {
    x.cartId == c && x.productId == p && x.variantId == v
  }

  /** `CartItem.query.filter_by(cart_id=c, product_id=p, variant_id=v).first()`. */
  function FindRow(items: seq<CartItem>, c: CartId, p: ProductId, v: Option<VariantId>): (r: Option<nat>)
    ensures r.Some? ==> r.value < |items| && IsLine(items[r.value], c, p, v)
    ensures r.None? <==> forall j :: 0 <= j < |items| ==> !IsLine(items[j], c, p, v)
  {
    if items == [] then None
    else if IsLine(items[0], c, p, v) then Some(0)
    else match FindRow(items[1..], c, p, v)
      case None => None
      case Some(k) => Some(k + 1)
  }

  /** `CartItem.query.filter_by(cart_id=c).all()`: the cart's rows in table order. */
  function RowsOf(items: seq<CartItem>, c: CartId): (r: seq<CartItem>)
    ensures |r| <= |items|
  {
    if items == [] then []
    else (if items[0].cartId == c then [items[0]] else []) + RowsOf(items[1..], c)
  }

  /** The cart's rows are exactly the table's rows that name the cart. */
  lemma {:induction false} RowsOfMembers(items: seq<CartItem>, c: CartId)
    ensures forall x :: x in RowsOf(items, c) <==> x in items && x.cartId == c
  {
    if items != [] {
      RowsOfMembers(items[1..], c);
      assert items == [items[0]] + items[1..];
    }
  }

  /** The table after `CartItem.query.filter_by(cart_id=c).delete()`. */
  function RowsNotOf(items: seq<CartItem>, c: CartId): (r: seq<CartItem>)
    ensures |r| <= |items|
  {
    if items == [] then []
    else (if items[0].cartId != c then [items[0]] else []) + RowsNotOf(items[1..], c)
  }

  /** The table after the deletion holds exactly the rows of the other carts. */
  lemma {:induction false} RowsNotOfMembers(items: seq<CartItem>, c: CartId)
    ensures forall x :: x in RowsNotOf(items, c) <==> x in items && x.cartId != c
  {
    if items != [] {
      RowsNotOfMembers(items[1..], c);
      assert items == [items[0]] + items[1..];
    }
  }

  function RemoveAt<T>(s: seq<T>, i: nat): (r: seq<T>)
    requires i < |s|
    ensures |r| == |s| - 1
    ensures forall k :: 0 <= k < |r| ==> r[k] == if k < i then s[k] else s[k + 1]
  {
    s[..i] + s[i + 1..]
  }

  // ----- facts about the row filter -----

  lemma {:induction false} RowsOfAppend(a: seq<CartItem>, b: seq<CartItem>, c: CartId)
    ensures RowsOf(a + b, c) == RowsOf(a, c) + RowsOf(b, c)
  {
    if a == [] {
      assert a + b == b;
    } else {
      var h := if a[0].cartId == c then [a[0]] else [];
      assert (a + b)[0] == a[0] && (a + b)[1..] == a[1..] + b;
      RowsOfAppend(a[1..], b, c);
      assert RowsOf(a + b, c) == h + RowsOf(a[1..] + b, c);
    }
  }

  lemma RowsOfSingleton(x: CartItem, c: CartId)
    ensures RowsOf([x], c) == if x.cartId == c then [x] else []
  {
    assert [x][1..] == [];
  }

  /** The filter of a table split around index i. */
  lemma RowsOfAround(items: seq<CartItem>, i: nat, c: CartId)
    requires i < |items|
    ensures RowsOf(items, c) == RowsOf(items[..i], c) + RowsOf([items[i]], c) + RowsOf(items[i + 1..], c)
  {
    assert items == items[..i] + [items[i]] + items[i + 1..];
    RowsOfAppend(items[..i] + [items[i]], items[i + 1..], c);
    RowsOfAppend(items[..i], [items[i]], c);
  }

  /** Changing the quantity of row i changes its own cart's sums by the difference and
      leaves every other cart's rows as they were. */
  lemma RowsAfterQuantityChange(items: seq<CartItem>, i: nat, q: int, c: CartId)
    requires i < |items|
    ensures items[i].cartId != c ==> RowsOf(items[i := items[i].(quantity := q)], c) == RowsOf(items, c)
    ensures items[i].cartId == c ==>
      TotalItems(RowsOf(items[i := items[i].(quantity := q)], c)) == TotalItems(RowsOf(items, c)) - items[i].quantity + q
    ensures |RowsOf(items[i := items[i].(quantity := q)], c)| == |RowsOf(items, c)|
  {
    var items' := items[i := items[i].(quantity := q)];
    RowsOfAround(items, i, c);
    RowsOfAround(items', i, c);
    assert items'[..i] == items[..i] && items'[i + 1..] == items[i + 1..];
    RowsOfSingleton(items[i], c);
    RowsOfSingleton(items'[i], c);
    var pre, post := RowsOf(items[..i], c), RowsOf(items[i + 1..], c);
    SumsAppend(pre + [items[i]], post);
    SumsAppend(pre, [items[i]]);
    SumsAppend(pre + [items'[i]], post);
    SumsAppend(pre, [items'[i]]);
    SumsSingleton(items[i]);
    SumsSingleton(items'[i]);
  }

  /** Appending a row adds it to its own cart's rows only. */
  lemma RowsAfterAppend(items: seq<CartItem>, x: CartItem, c: CartId)
    ensures RowsOf(items + [x], c) == RowsOf(items, c) + (if x.cartId == c then [x] else [])
    ensures x.cartId == c ==> TotalItems(RowsOf(items + [x], c)) == TotalItems(RowsOf(items, c)) + x.quantity
  {
    RowsOfAppend(items, [x], c);
    RowsOfSingleton(x, c);
  }

  /** The filter of a table with row i deleted. */
  lemma RowsOfRemoveAt(items: seq<CartItem>, i: nat, c: CartId)
    requires i < |items|
    ensures RowsOf(RemoveAt(items, i), c) == RowsOf(items[..i], c) + RowsOf(items[i + 1..], c)
  {
    RowsOfAppend(items[..i], items[i + 1..], c);
  }

  /** Deleting row i takes it out of its own cart's rows only. */
  lemma RowsAfterRemoval(items: seq<CartItem>, i: nat, c: CartId)
    requires i < |items|
    ensures items[i].cartId != c ==> RowsOf(RemoveAt(items, i), c) == RowsOf(items, c)
    ensures items[i].cartId == c ==> |RowsOf(RemoveAt(items, i), c)| == |RowsOf(items, c)| - 1
    ensures items[i].cartId == c ==>
      TotalItems(RowsOf(RemoveAt(items, i), c)) == TotalItems(RowsOf(items, c)) - items[i].quantity
  {
    RowsOfAround(items, i, c);
    RowsOfRemoveAt(items, i, c);
    RowsOfSingleton(items[i], c);
    var pre, post := RowsOf(items[..i], c), RowsOf(items[i + 1..], c);
    if items[i].cartId == c {
      SumsAppend(pre + [items[i]], post);
      SumsAppend(pre, [items[i]]);
      SumsAppend(pre, post);
      SumsSingleton(items[i]);
    } else {
      assert pre + [] + post == pre + post;
    }
  }

  /** Deleting all rows of cart g empties g and leaves every other cart's rows as they were. */
  lemma {:induction false} RowsAfterCartDelete(items: seq<CartItem>, g: CartId, c: CartId)
    ensures RowsOf(RowsNotOf(items, g), c) == if c == g then [] else RowsOf(items, c)
  {
    if items != [] {
      RowsAfterCartDelete(items[1..], g, c);
      RowsOfAppend(if items[0].cartId != g then [items[0]] else [], RowsNotOf(items[1..], g), c);
      RowsOfSingleton(items[0], c);
      assert [] + RowsOf(RowsNotOf(items[1..], g), c) == RowsOf(RowsNotOf(items[1..], g), c);
    }
  }

  // ----- table invariants -----

  /** Two distinct rows never share an id or a (cart, product, variant) key. */
  predicate Distinct(x: CartItem, y: CartItem) {
    x.id != y.id && !IsLine(y, x.cartId, x.productId, x.variantId)
  }

  ghost predicate UniqueRows(items: seq<CartItem>) {
    forall i, j :: 0 <= i < j < |items| ==> Distinct(items[i], items[j])
  }

  /** Some cart in the table has this id (the `cart_items.cart_id` foreign key). */
  ghost predicate HasCart(carts: seq<Cart>, id: CartId) {
    exists j :: 0 <= j < |carts| && carts[j].id == id
  }

  /** Each cart is owned by exactly one of a user and a session. */
  predicate OneOwner(c: Cart) {
    c.userId.Some? != c.sessionId.Some?
  }

  predicate SameOwner(a: Cart, b: Cart) {
    (a.userId.Some? && a.userId == b.userId) || (a.sessionId.Some? && a.sessionId == b.sessionId)
  }

  ghost predicate CartsInvariant(carts: seq<Cart>, nextCartId: nat) {
    && (forall i :: 0 <= i < |carts| ==> carts[i].id < nextCartId && OneOwner(carts[i]))
    && (forall i, j :: 0 <= i < j < |carts| ==> carts[i].id != carts[j].id && !SameOwner(carts[i], carts[j]))
  }

  ghost predicate ItemsInvariant(items: seq<CartItem>, carts: seq<Cart>, nextItemId: nat) {
    && (forall i :: 0 <= i < |items| ==> items[i].id < nextItemId)
    && (forall i :: 0 <= i < |items| ==> HasCart(carts, items[i].cartId))
    && (forall i :: 0 <= i < |items| ==> items[i].quantity > 0)
    && UniqueRows(items)
  }

  /** What the two tables keep between requests: fresh ids stay fresh, every cart has one
      owner and no two carts share one, every row belongs to a cart, no quantity is stored
      as zero, and at most one row exists per (cart, product, variant). */
  ghost predicate StoreInvariant(carts: seq<Cart>, items: seq<CartItem>, nextCartId: nat, nextItemId: nat) {
    CartsInvariant(carts, nextCartId) && ItemsInvariant(items, carts, nextItemId)
  }

  // ----- preservation of the invariants -----

  /** A cart created for an identity that has none keeps the owners distinct. */
  lemma NewCartKeepsInvariant(carts: seq<Cart>, items: seq<CartItem>, nextCartId: nat, nextItemId: nat,
                              user: Option<UserId>, session: Option<SessionId>)
    requires StoreInvariant(carts, items, nextCartId, nextItemId)
    requires user.Some? || session.Some?
    requires LookupCart(carts, user, session).None?
    ensures StoreInvariant(carts + [NewCart(nextCartId, user, session)], items, nextCartId + 1, nextItemId)
  {
    var c := NewCart(nextCartId, user, session);
    var carts' := carts + [c];
    forall i, j | 0 <= i < j < |carts'|
      ensures carts'[i].id != carts'[j].id && !SameOwner(carts'[i], carts'[j])
    {
      if j == |carts| {
        assert carts'[i] == carts[i];
        if user.Some? {
          assert carts[i].userId != user;
        } else {
          assert carts[i].sessionId != session;
        }
      }
    }
    forall id | HasCart(carts, id) ensures HasCart(carts', id) {
      var j :| 0 <= j < |carts| && carts[j].id == id;
      assert carts'[j] == carts[j];
    }
  }

  /** Setting a positive quantity on an existing row keeps every row invariant. */
  lemma QuantityChangeKeepsInvariant(items: seq<CartItem>, carts: seq<Cart>, nextItemId: nat, i: nat, q: int)
    requires ItemsInvariant(items, carts, nextItemId)
    requires i < |items| && q > 0
    ensures ItemsInvariant(items[i := items[i].(quantity := q)], carts, nextItemId)
  {
    var items' := items[i := items[i].(quantity := q)];
    forall k, l | 0 <= k < l < |items'| ensures Distinct(items'[k], items'[l]) {
      assert Distinct(items[k], items[l]);
    }
  }

  /** Appending a row with a fresh id, an existing cart, a positive quantity and a key no row
      has keeps every row invariant. */
  lemma AppendKeepsInvariant(items: seq<CartItem>, carts: seq<Cart>, nextItemId: nat, x: CartItem)
    requires ItemsInvariant(items, carts, nextItemId)
    requires x.id == nextItemId && HasCart(carts, x.cartId) && x.quantity > 0
    requires FindRow(items, x.cartId, x.productId, x.variantId).None?
    ensures ItemsInvariant(items + [x], carts, nextItemId + 1)
  {
    var items' := items + [x];
    forall k, l | 0 <= k < l < |items'| ensures Distinct(items'[k], items'[l]) {
      if l == |items| {
        assert items'[k] == items[k];
        assert !IsLine(items[k], x.cartId, x.productId, x.variantId);
      } else {
        assert Distinct(items[k], items[l]);
      }
    }
  }

  lemma RemoveKeepsInvariant(items: seq<CartItem>, carts: seq<Cart>, nextItemId: nat, i: nat)
    requires ItemsInvariant(items, carts, nextItemId)
    requires i < |items|
    ensures ItemsInvariant(RemoveAt(items, i), carts, nextItemId)
  {
    var items' := RemoveAt(items, i);
    forall k, l | 0 <= k < l < |items'| ensures Distinct(items'[k], items'[l]) {
      var k', l' := if k < i then k else k + 1, if l < i then l else l + 1;
      assert items'[k] == items[k'] && items'[l] == items[l'];
      assert Distinct(items[k'], items[l']);
    }
  }

  lemma {:induction false} RowsNotOfUnique(items: seq<CartItem>, g: CartId)
    requires UniqueRows(items)
    ensures UniqueRows(RowsNotOf(items, g))
  {
    if items != [] {
      assert UniqueRows(items[1..]) by {
        forall k, l | 0 <= k < l < |items[1..]| ensures Distinct(items[1..][k], items[1..][l]) {
          assert Distinct(items[k + 1], items[l + 1]);
        }
      }
      RowsNotOfUnique(items[1..], g);
      RowsNotOfMembers(items[1..], g);
      var rest := RowsNotOf(items[1..], g);
      if items[0].cartId != g {
        var r := [items[0]] + rest;
        forall k, l | 0 <= k < l < |r| ensures Distinct(r[k], r[l]) {
          if k == 0 {
            assert r[l] in items[1..];
            var m :| 0 <= m < |items[1..]| && items[1..][m] == r[l];
            assert Distinct(items[0], items[m + 1]);
          } else {
            assert r[k] == rest[k - 1] && r[l] == rest[l - 1];
          }
        }
      }
    }
  }

  /** Deleting one cart keeps the remaining carts' invariant. */
  lemma CartRemoveKeepsInvariant(carts: seq<Cart>, nextCartId: nat, gi: nat)
    requires CartsInvariant(carts, nextCartId)
    requires gi < |carts|
    ensures CartsInvariant(RemoveAt(carts, gi), nextCartId)
  {
    var carts' := RemoveAt(carts, gi);
    forall i, j | 0 <= i < j < |carts'|
      ensures carts'[i].id != carts'[j].id && !SameOwner(carts'[i], carts'[j])
    {
      var i', j' := if i < gi then i else i + 1, if j < gi then j else j + 1;
      assert carts'[i] == carts[i'] && carts'[j] == carts[j'];
    }
  }

  /** Deleting cart gi keeps every other cart id. */
  lemma CartRemoveIds(carts: seq<Cart>, gi: nat)
    requires gi < |carts|
    ensures forall id :: HasCart(carts, id) && id != carts[gi].id ==> HasCart(RemoveAt(carts, gi), id)
  {
    var carts' := RemoveAt(carts, gi);
    forall id | HasCart(carts, id) && id != carts[gi].id ensures HasCart(carts', id) {
      var j :| 0 <= j < |carts| && carts[j].id == id;
      var j' := if j < gi then j else j - 1;
      assert carts'[j'] == carts[j];
    }
  }

  /** Deleting all rows of cart g keeps every row invariant, against the carts without g. */
  lemma RowsDeleteKeepsInvariant(items: seq<CartItem>, carts: seq<Cart>, carts': seq<Cart>, nextItemId: nat, g: CartId)
    requires ItemsInvariant(items, carts, nextItemId)
    requires forall id :: HasCart(carts, id) && id != g ==> HasCart(carts', id)
    ensures ItemsInvariant(RowsNotOf(items, g), carts', nextItemId)
  {
    var items' := RowsNotOf(items, g);
    RowsNotOfMembers(items, g);
    forall k | 0 <= k < |items'|
      ensures HasCart(carts', items'[k].cartId) && items'[k].id < nextItemId && items'[k].quantity > 0
    {
      assert items'[k] in items;
    }
    RowsNotOfUnique(items, g);
  }

  /** Deleting a cart together with all its rows keeps the store invariant. */
  lemma CartDeleteKeepsInvariant(carts: seq<Cart>, items: seq<CartItem>, nextCartId: nat, nextItemId: nat, gi: nat)
    requires StoreInvariant(carts, items, nextCartId, nextItemId)
    requires gi < |carts|
    ensures StoreInvariant(RemoveAt(carts, gi), RowsNotOf(items, carts[gi].id), nextCartId, nextItemId)
  {
    CartRemoveKeepsInvariant(carts, nextCartId, gi);
    CartRemoveIds(carts, gi);
    RowsDeleteKeepsInvariant(items, carts, RemoveAt(carts, gi), nextItemId, carts[gi].id);
  }

  /** A row is found by its own (cart, product, variant) key. */
  lemma FindRowFindsOwnRow(items: seq<CartItem>, i: nat)
    requires UniqueRows(items) && i < |items|
    ensures FindRow(items, items[i].cartId, items[i].productId, items[i].variantId) == Some(i)
  {
    var x := items[i];
    forall k | 0 <= k < |items| && k != i ensures !IsLine(items[k], x.cartId, x.productId, x.variantId) {
      if k < i { assert Distinct(items[k], items[i]); } else { assert Distinct(items[i], items[k]); }
    }
  }

  /** Every cart id in use is below the counter, so the next cart created starts empty. */
  lemma FreshCartHasNoRows(carts: seq<Cart>, items: seq<CartItem>, nextCartId: nat, nextItemId: nat)
    requires StoreInvariant(carts, items, nextCartId, nextItemId)
    ensures RowsOf(items, nextCartId) == []
  {
    forall k | 0 <= k < |items| ensures items[k].cartId < nextCartId {
      var j :| 0 <= j < |carts| && carts[j].id == items[k].cartId;
    }
    RowsOfMembers(items, nextCartId);
  }

  /** Two different carts of the table never share an id. */
  lemma DistinctCartsHaveDistinctIds(carts: seq<Cart>, nextCartId: nat, x: Cart, y: Cart)
    requires CartsInvariant(carts, nextCartId)
    requires x in carts && y in carts && x != y
    ensures x.id != y.id
  {
    var a :| 0 <= a < |carts| && carts[a] == x;
    var b :| 0 <= b < |carts| && carts[b] == y;
    if a < b { assert carts[a].id != carts[b].id; } else { assert carts[b].id != carts[a].id; }
  }

  /** Owners are distinct, so the lookup by user finds the one cart that user owns. */
  lemma UserCartIsUnique(carts: seq<Cart>, nextCartId: nat, b: nat, session: Option<SessionId>)
    requires CartsInvariant(carts, nextCartId)
    requires b < |carts| && carts[b].userId.Some?
    ensures LookupCart(carts, carts[b].userId, session) == Some(carts[b])
  {
    forall j | 0 <= j < |carts| && j != b ensures carts[j].userId != carts[b].userId {
      if j < b { assert !SameOwner(carts[j], carts[b]); } else { assert !SameOwner(carts[b], carts[j]); }
    }
  }

  /** Deleting another cart leaves a user's cart where the lookup by user finds it. */
  lemma UserCartSurvivesRemoval(carts: seq<Cart>, nextCartId: nat, gi: nat, ui: nat)
    requires CartsInvariant(carts, nextCartId)
    requires gi < |carts| && ui < |carts| && gi != ui && carts[ui].userId.Some?
    ensures LookupCart(RemoveAt(carts, gi), carts[ui].userId, None) == Some(carts[ui])
  {
    var ui' := if ui < gi then ui else ui - 1;
    assert RemoveAt(carts, gi)[ui'] == carts[ui];
    CartRemoveKeepsInvariant(carts, nextCartId, gi);
    UserCartIsUnique(RemoveAt(carts, gi), nextCartId, ui', None);
  }

  /** Once the cart of session s is deleted, no cart of that session is left. */
  lemma SessionCartGone(carts: seq<Cart>, nextCartId: nat, gi: nat, s: SessionId)
    requires CartsInvariant(carts, nextCartId)
    requires gi < |carts| && carts[gi].sessionId == Some(s)
    ensures FindSessionCart(RemoveAt(carts, gi), s).None?
  {
    var carts' := RemoveAt(carts, gi);
    forall j | 0 <= j < |carts'| ensures carts'[j].sessionId != Some(s) {
      var j' := if j < gi then j else j + 1;
      assert carts'[j] == carts[j'];
      if j' < gi { assert !SameOwner(carts[j'], carts[gi]); } else { assert !SameOwner(carts[gi], carts[j']); }
    }
  }

  // ----- adding units to a cart -----

  /** The table after adding q units of (product p, variant v) to cart c: the cart's row for
      that key grows by q, or, when there is none, a row with id `id` and the given unit
      price is appended. */
  function AddUnits(items: seq<CartItem>, c: CartId, p: ProductId, v: Option<VariantId>,
                    q: int, unitPrice: int, id: ItemId): seq<CartItem>
  {
    match FindRow(items, c, p, v)
    case Some(i) => items[i := items[i].(quantity := items[i].quantity + q)]
    case None => items + [CartItem(id, c, p, v, q, unitPrice)]
  }

  /** Adding units changes the cart's summed quantity by exactly q. */
  lemma AddUnitsSum(items: seq<CartItem>, c: CartId, p: ProductId, v: Option<VariantId>,
                    q: int, unitPrice: int, id: ItemId)
    ensures TotalItems(RowsOf(AddUnits(items, c, p, v, q, unitPrice, id), c)) == TotalItems(RowsOf(items, c)) + q
  {
    match FindRow(items, c, p, v)
    case Some(i) =>
      RowsAfterQuantityChange(items, i, items[i].quantity + q, c);
    case None =>
      RowsAfterAppend(items, CartItem(id, c, p, v, q, unitPrice), c);
  }

  /** Adding units to cart c leaves the rows of every other cart as they were. */
  lemma AddUnitsOtherCart(items: seq<CartItem>, c: CartId, p: ProductId, v: Option<VariantId>,
                          q: int, unitPrice: int, id: ItemId, other: CartId)
    requires other != c
    ensures RowsOf(AddUnits(items, c, p, v, q, unitPrice, id), other) == RowsOf(items, other)
  {
    var found := FindRow(items, c, p, v);
    if found.Some? {
      var i := found.value;
      assert AddUnits(items, c, p, v, q, unitPrice, id) == items[i := items[i].(quantity := items[i].quantity + q)];
      RowsAfterQuantityChange(items, i, items[i].quantity + q, other);
    } else {
      var row := CartItem(id, c, p, v, q, unitPrice);
      assert AddUnits(items, c, p, v, q, unitPrice, id) == items + [row];
      RowsAfterAppend(items, row, other);
    }
  }

  /** After adding units the cart has exactly one row for the key, holding the old quantity
      plus q; an existing row keeps its id and its unit price. */
  lemma AddUnitsRow(items: seq<CartItem>, c: CartId, p: ProductId, v: Option<VariantId>,
                    q: int, unitPrice: int, id: ItemId)
    requires UniqueRows(items)
    ensures var items' := AddUnits(items, c, p, v, q, unitPrice, id);
      var found := FindRow(items, c, p, v);
      var found' := FindRow(items', c, p, v);
      && found'.Some?
      && (found.Some? ==> found' == found && items'[found'.value] == items[found.value].(quantity := items[found.value].quantity + q))
      && (found.None? ==> items'[found'.value] == CartItem(id, c, p, v, q, unitPrice))
  {
    var items' := AddUnits(items, c, p, v, q, unitPrice, id);
    match FindRow(items, c, p, v)
    case Some(i) =>
      assert UniqueRows(items') by {
        forall k, l | 0 <= k < l < |items'| ensures Distinct(items'[k], items'[l]) {
          assert Distinct(items[k], items[l]);
        }
      }
      FindRowFindsOwnRow(items', i);
    case None =>
      assert IsLine(items'[|items|], c, p, v);
      forall k | 0 <= k < |items| ensures !IsLine(items'[k], c, p, v) {
        assert items'[k] == items[k];
      }
  }

  /** Adding a positive number of units to an existing cart keeps every row invariant. */
  lemma AddUnitsKeepsInvariant(items: seq<CartItem>, carts: seq<Cart>, nextItemId: nat,
                               c: CartId, p: ProductId, v: Option<VariantId>, q: int, unitPrice: int)
    requires ItemsInvariant(items, carts, nextItemId)
    requires HasCart(carts, c) && q > 0
    ensures ItemsInvariant(AddUnits(items, c, p, v, q, unitPrice, nextItemId), carts,
                           if FindRow(items, c, p, v).Some? then nextItemId else nextItemId + 1)
  {
    match FindRow(items, c, p, v)
    case Some(i) =>
      QuantityChangeKeepsInvariant(items, carts, nextItemId, i, items[i].quantity + q);
    case None =>
      AppendKeepsInvariant(items, carts, nextItemId, CartItem(nextItemId, c, p, v, q, unitPrice));
  }

  // ----- the merge loop as a fold -----

  /** The next fresh row id after adding units: a new id is taken only for a new row. */
  function NextIdAfterAdd(items: seq<CartItem>, c: CartId, p: ProductId, v: Option<VariantId>, id: nat): nat {
    if FindRow(items, c, p, v).Some? then id else id + 1
  }

  /** The loop of `merge_guest_cart`: each row of `rows`, in order, adds its units to cart
      `target` through `AddUnits`, a new row keeping the guest row's unit price. The result
      is the table and the next fresh row id. */
  function MergeAll(items: seq<CartItem>, rows: seq<CartItem>, target: CartId, id: nat): (seq<CartItem>, nat)
    decreases |rows|
  {
    if rows == [] then (items, id)
    else
      var k := |rows| - 1;
      var (before, next) := MergeAll(items, rows[..k], target, id);
      var g := rows[k];
      (AddUnits(before, target, g.productId, g.variantId, g.quantity, g.unitPrice, next),
       NextIdAfterAdd(before, target, g.productId, g.variantId, next))
  }

  /** Merging raises the target cart's summed quantity by exactly the merged rows' sum. */
  lemma {:induction false} MergeAllSum(items: seq<CartItem>, rows: seq<CartItem>, target: CartId, id: nat)
    ensures TotalItems(RowsOf(MergeAll(items, rows, target, id).0, target)) ==
      TotalItems(RowsOf(items, target)) + TotalItems(rows)
  {
    if rows != [] {
      var k := |rows| - 1;
      MergeAllSum(items, rows[..k], target, id);
      var (before, next) := MergeAll(items, rows[..k], target, id);
      var g := rows[k];
      AddUnitsSum(before, target, g.productId, g.variantId, g.quantity, g.unitPrice, next);
      SumsOfPrefix(rows, k);
      assert rows[..k + 1] == rows;
    }
  }

  /** Merging leaves the rows of every other cart as they were. */
  lemma {:induction false} MergeAllOtherCarts(items: seq<CartItem>, rows: seq<CartItem>, target: CartId, id: nat, other: CartId)
    requires other != target
    ensures RowsOf(MergeAll(items, rows, target, id).0, other) == RowsOf(items, other)
  {
    if rows != [] {
      var k := |rows| - 1;
      MergeAllOtherCarts(items, rows[..k], target, id, other);
      var (before, next) := MergeAll(items, rows[..k], target, id);
      var g := rows[k];
      AddUnitsOtherCart(before, target, g.productId, g.variantId, g.quantity, g.unitPrice, next, other);
    }
  }

  /** Merging one more row is one more `AddUnits` step on the merge of the earlier rows. */
  lemma MergeAllStep(items: seq<CartItem>, rows: seq<CartItem>, k: nat, target: CartId, id: nat)
    requires k < |rows|
    ensures var (before, next) := MergeAll(items, rows[..k], target, id);
      var g := rows[k];
      MergeAll(items, rows[..k + 1], target, id) ==
        (AddUnits(before, target, g.productId, g.variantId, g.quantity, g.unitPrice, next),
         NextIdAfterAdd(before, target, g.productId, g.variantId, next))
  {
    assert rows[..k + 1][..k] == rows[..k];
  }
}
