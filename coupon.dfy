/** The coupon rules of app/models/coupon.py. The amounts are `Numeric(10, 2)` Decimals,
    modelled as reals; a NULL column is `None`. Timestamps are opaque integers. */
module CouponRules {
  import opened Wrappers

  datatype Coupon = Coupon(
    code: string,
    discountType: string,
    discountValue: real,
    minimumAmount: Option<real>,
    maximumDiscount: Option<real>,
    usageLimit: Option<int>,
    usedCount: int,
    isActive: bool,
    validFrom: Option<int>,
    validUntil: Option<int>)

  /** Python truthiness of an optional Decimal: `None` and zero are falsy. */
  predicate Truthy(x: Option<real>) {
    x.Some? && x.value != 0.0
  }

  /** The messages of `is_valid`: "Cupón no válido", "Monto mínimo requerido: $<minimum>"
      and "Cupón válido". */
  datatype CouponMessage = NotValid | MinimumRequired(minimum: real) | CouponValid

  /** The order amount is below a minimum that applies: both amounts must be truthy. */
  predicate BelowMinimum(c: Coupon, orderAmount: Option<real>) {
    Truthy(c.minimumAmount) && Truthy(orderAmount) && orderAmount.value < c.minimumAmount.value
  }

  /** `Coupon.is_valid`: an inactive coupon is refused before any amount check; an order
      below an applicable minimum is refused with that minimum; everything else is valid. */
  function IsValid(c: Coupon, orderAmount: Option<real>): (r: (bool, CouponMessage))
    ensures r.0 <==> c.isActive && !BelowMinimum(c, orderAmount)
    ensures r.0 <==> r.1 == CouponValid
    ensures !c.isActive ==> r.1 == NotValid
    ensures r.1.MinimumRequired? <==> c.isActive && BelowMinimum(c, orderAmount)
    ensures r.1.MinimumRequired? ==> r.1.minimum == c.minimumAmount.value
  {
    if !c.isActive then (false, NotValid)
    else if Truthy(c.minimumAmount) && Truthy(orderAmount) && orderAmount.value < c.minimumAmount.value then
      (false, MinimumRequired(c.minimumAmount.value))
    else (true, CouponValid)
  }

  /** The validity window and the usage counters are never consulted. */
  lemma ValidityIgnoresWindowAndUsage(c: Coupon, orderAmount: Option<real>,
                                      validFrom: Option<int>, validUntil: Option<int>,
                                      usageLimit: Option<int>, usedCount: int)
    ensures IsValid(c.(validFrom := validFrom, validUntil := validUntil, usageLimit := usageLimit, usedCount := usedCount), orderAmount)
         == IsValid(c, orderAmount)
  {
  }

  /** Without an order amount (or with a zero one) only activity decides. */
  lemma NoAmountOnlyActivityCounts(c: Coupon, orderAmount: Option<real>)
    requires !Truthy(orderAmount)
    ensures IsValid(c, orderAmount).0 <==> c.isActive
  {
  }

  /** `Coupon.calculate_discount`: a percentage of the order, capped by a truthy maximum; any
      other type is a fixed amount that never exceeds the order. */
  function CalculateDiscount(c: Coupon, orderAmount: real): (d: real)
    ensures c.discountType == "percentage" && !Truthy(c.maximumDiscount) ==>
      d == orderAmount * (c.discountValue / 100.0)
    ensures c.discountType == "percentage" && Truthy(c.maximumDiscount) ==>
      d <= c.maximumDiscount.value && d <= orderAmount * (c.discountValue / 100.0)
      && (d == c.maximumDiscount.value || d == orderAmount * (c.discountValue / 100.0))
    ensures c.discountType != "percentage" ==>
      d <= orderAmount && d <= c.discountValue && (d == orderAmount || d == c.discountValue)
  {
    if c.discountType == "percentage" then
      var discount := orderAmount * (c.discountValue / 100.0);
      if Truthy(c.maximumDiscount) then Min(discount, c.maximumDiscount.value) else discount
    else Min(c.discountValue, orderAmount)
  }

  /** Python's `min` of two numbers. */
  function Min(a: real, b: real): (m: real)
    ensures m <= a && m <= b && (m == a || m == b)
  {
    if b < a then b else a
  }

  /** With a non-negative order, a discount value that is a percentage between 0 and 100 or
      a non-negative fixed amount, and a non-negative cap, the discount lies between zero and
      the order amount. */
  lemma DiscountWithinOrder(c: Coupon, orderAmount: real)
    requires orderAmount >= 0.0
    requires c.discountType == "percentage" ==> 0.0 <= c.discountValue <= 100.0
    requires c.discountType != "percentage" ==> c.discountValue >= 0.0
    requires c.maximumDiscount.Some? ==> c.maximumDiscount.value >= 0.0
    ensures 0.0 <= CalculateDiscount(c, orderAmount) <= orderAmount
  {
    if c.discountType == "percentage" {
      var f := c.discountValue / 100.0;
      assert 0.0 <= f <= 1.0;
      assert orderAmount * (1.0 - f) == orderAmount - orderAmount * f;
      assert orderAmount * (1.0 - f) >= 0.0;
      assert 0.0 <= orderAmount * f <= orderAmount;
    }
  }
}
