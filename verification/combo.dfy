/** The Combo entity and its detail lines (Combo, ComboDetalle), with the exact
    decimal discount arithmetic of calculateDiscountedPrice. BigDecimal values are
    modelled as `real`, which holds every finite decimal exactly. */
module ComboEntity {
  import opened Outcomes
  import opened Parts

  /** One line of a combo: a component id, a quantity, and the resolved component
      that the compatibility validator attaches in place. */
  class ComboDetail {
    var comboId: int
    var componentId: int
    var quantity: int
    var component: Option<Part>

    constructor (comboId: int, componentId: int, quantity: int)
      ensures this.comboId == comboId && this.componentId == componentId
      ensures this.quantity == quantity && component == None
    {
      this.comboId := comboId;
      this.componentId := componentId;
      this.quantity := quantity;
      component := None;
    }

    constructor WithComponent(comboId: int, componentId: int, quantity: int, component: Part)
      ensures this.comboId == comboId && this.componentId == componentId
      ensures this.quantity == quantity && this.component == Some(component)
    {
      this.comboId := comboId;
      this.componentId := componentId;
      this.quantity := quantity;
      this.component := Some(component);
    }
  }

  /** The component ids of a list of details, in list order. */
  function ComponentIds(details: seq<ComboDetail>): (ids: seq<int>)
    reads details
    ensures |ids| == |details|
    ensures forall k | 0 <= k < |details| :: ids[k] == details[k].componentId
  {
    if details == [] then [] else [details[0].componentId] + ComponentIds(details[1..])
  }

  class Combo {
    var comboId: int
    var discount: Option<real>
    var details: Option<seq<ComboDetail>>
    var name: Option<string>

    /** A new combo: no id yet (the database assigns it) and an empty detail list. */
    constructor (discount: Option<real>)
      ensures comboId == 0 && this.discount == discount
      ensures details == Some([]) && name == None
    {
      comboId := 0;
      this.discount := discount;
      details := Some([]);
      name := None;
    }

    /** The detail list, reading a null list as empty. */
    function DetailList(): seq<ComboDetail>
      reads this
    {
      if details.Some? then details.value else []
    }

    /** addDetalle: creates the list when it is null, then appends at the end. */
    method AddDetail(d: ComboDetail)
      modifies this
      ensures details == Some(old(DetailList()) + [d])
      ensures comboId == old(comboId) && discount == old(discount) && name == old(name)
    {
      if details.None? {
        details := Some([]);
      }
      details := Some(details.value + [d]);
    }

    /** calculateDiscountedPrice: a null price or a null discount returns the price
        unchanged; otherwise the price times one minus the discount fraction rounded
        half-up to two decimals. */
    function CalculateDiscountedPrice(originalPrice: Option<real>): (r: Option<real>)
      reads this
      ensures originalPrice.None? || discount.None? ==> r == originalPrice
      ensures originalPrice.Some? && discount.Some? ==>
                r == Some(DiscountedPrice(originalPrice.value, discount.value))
      ensures originalPrice.Some? && 0.0 <= originalPrice.value && discount.Some? &&
              0.0 <= discount.value <= 100.0 ==>
                r.Some? && 0.0 <= r.value <= originalPrice.value
    {
      if originalPrice.None? || discount.None? then originalPrice
      else
        var price, percent := originalPrice.value, discount.value;
        assert 0.0 <= price && 0.0 <= percent <= 100.0 ==>
                 0.0 <= DiscountedPrice(price, percent) <= price by {
          if 0.0 <= price && 0.0 <= percent <= 100.0 {
            DiscountedPriceWithinRange(price, percent);
          }
        }
        Some(DiscountedPrice(price, percent))
    }
  }

  /** Rounding to an integer with BigDecimal's ROUND_HALF_UP: to the nearest integer,
      ties away from zero. */
  function RoundHalfUp(x: real): int
  {
    if x >= 0.0 then (x + 0.5).Floor else -((-x + 0.5).Floor)
  }

  /** `percent.divide(100, 2, ROUND_HALF_UP)`: a quotient at scale 2 is a whole number
      of hundredths, and that number is the percentage rounded half-up. */
  function DiscountFraction(percent: real): real
  {
    RoundHalfUp(percent) as real / 100.0
  }

  /** `originalPrice.multiply(ONE.subtract(fraction))`; the product is not rounded. */
  function DiscountedPrice(originalPrice: real, percent: real): real
  {
    originalPrice * (1.0 - DiscountFraction(percent))
  }

  lemma RoundHalfUpNearest(x: real, k: int)
    ensures x >= 0.0 ==> (RoundHalfUp(x) == k <==> k as real - 0.5 <= x < k as real + 0.5)
    ensures x < 0.0 ==> (RoundHalfUp(x) == k <==> k as real - 0.5 < x <= k as real + 0.5)
  {
  }

  lemma RoundHalfUpMonotone(x: real, y: real)
    requires x <= y
    ensures RoundHalfUp(x) <= RoundHalfUp(y)
  {
  }

  /** A whole percentage is used as it is. */
  lemma RoundHalfUpWhole(n: int)
    ensures RoundHalfUp(n as real) == n
  {
  }

  lemma DiscountedPriceWithinRange(originalPrice: real, percent: real)
    requires 0.0 <= originalPrice && 0.0 <= percent <= 100.0
    ensures 0.0 <= DiscountedPrice(originalPrice, percent) <= originalPrice
  {
    var k := RoundHalfUp(percent);
    RoundHalfUpMonotone(0.0, percent);
    RoundHalfUpMonotone(percent, 100.0);
    RoundHalfUpWhole(0);
    RoundHalfUpWhole(100);
    assert 0 <= k <= 100;
    var f := 1.0 - k as real / 100.0;
    assert 0.0 <= f <= 1.0;
    assert originalPrice * f <= originalPrice * 1.0 by {
      assert originalPrice * (1.0 - f) >= 0.0;
    }
  }

  /** A discount of 0 leaves the price unchanged; a discount of 100 makes it zero. */
  lemma DiscountedPriceEnds(originalPrice: real)
    ensures DiscountedPrice(originalPrice, 0.0) == originalPrice
    ensures DiscountedPrice(originalPrice, 100.0) == 0.0
  {
    RoundHalfUpWhole(0);
    RoundHalfUpWhole(100);
  }

  /** Only the rounded percentage matters: the sub-percent digits are rounded away
      before the multiplication. */
  lemma DiscountUsesRoundedPercent(originalPrice: real, percent: real)
    ensures DiscountedPrice(originalPrice, percent)
         == originalPrice * (100 - RoundHalfUp(percent)) as real / 100.0
    ensures DiscountedPrice(originalPrice, percent)
         == DiscountedPrice(originalPrice, RoundHalfUp(percent) as real)
  {
    var k := RoundHalfUp(percent);
    RoundHalfUpWhole(k);
    assert 1.0 - k as real / 100.0 == (100 - k) as real / 100.0;
    assert originalPrice * (1.0 - k as real / 100.0) == originalPrice * (100 - k) as real / 100.0;
  }

  /** A larger discount never gives a larger price. */
  lemma DiscountedPriceAntitone(originalPrice: real, p: real, q: real)
    requires 0.0 <= originalPrice && p <= q
    ensures DiscountedPrice(originalPrice, q) <= DiscountedPrice(originalPrice, p)
  {
    RoundHalfUpMonotone(p, q);
    var d := (RoundHalfUp(q) - RoundHalfUp(p)) as real / 100.0;
    assert d >= 0.0;
    assert DiscountedPrice(originalPrice, p) - DiscountedPrice(originalPrice, q) == originalPrice * d;
  }

  /** 10% off a 500.00 line total is 450.00; 12.5% is rounded up to 13%. */
  lemma DiscountExamples()
    ensures DiscountedPrice(500.0, 10.0) == 450.0
    ensures DiscountedPrice(100.0, 12.5) == 87.0
    ensures DiscountedPrice(100.0, 12.49) == 88.0
  {
    RoundHalfUpWhole(10);
    RoundHalfUpNearest(12.5, 13);
    RoundHalfUpNearest(12.49, 12);
  }
}
