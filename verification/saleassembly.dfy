/** VentaController's assembly of a sale: the parts of the chosen combo, expanded
    unit by unit, their base price, and the (id, quantity) pairs handed to the stock
    check and the purchase transaction. */
module SaleAssembly {
  import opened Outcomes
  import opened Parts
  import opened ComboEntity

  // ---------------------------------------------------------------------------
  // Counting

  /** How many times x occurs in s. */
  function Count(s: seq<int>, x: int): nat
  {
    if s == [] then 0 else Count(s[..|s| - 1], x) + (if s[|s| - 1] == x then 1 else 0)
  }

  function PartIds(parts: seq<Part>): (ids: seq<int>)
    ensures |ids| == |parts| && forall k | 0 <= k < |parts| :: ids[k] == parts[k].id
  {
    seq(|parts|, k requires 0 <= k < |parts| => parts[k].id)
  }

  function LineIds(lines: seq<(int, int)>): (ids: seq<int>)
    ensures |ids| == |lines| && forall k | 0 <= k < |lines| :: ids[k] == lines[k].0
  {
    seq(|lines|, k requires 0 <= k < |lines| => lines[k].0)
  }

  /** The distinct elements of s, each where it first occurs. */
  function FirstAppearances(s: seq<int>): seq<int>
  {
    if s == [] then []
    else
      var init := s[..|s| - 1];
      if s[|s| - 1] in init then FirstAppearances(init) else FirstAppearances(init) + [s[|s| - 1]]
  }

  predicate NoDuplicates(s: seq<int>)
  {
    forall a, b | 0 <= a < b < |s| :: s[a] != s[b]
  }

  lemma {:induction false} FirstAppearancesCorrect(s: seq<int>)
    ensures NoDuplicates(FirstAppearances(s))
    ensures forall x :: x in FirstAppearances(s) <==> x in s
  {
    if s != [] {
      var init := s[..|s| - 1];
      FirstAppearancesCorrect(init);
      assert s == init + [s[|s| - 1]];
    }
  }

  /** The sum of the counts of the elements of d in s. */
  function SumCounts(d: seq<int>, s: seq<int>): nat
  {
    if d == [] then 0 else SumCounts(d[..|d| - 1], s) + Count(s, d[|d| - 1])
  }

  lemma {:induction false} SumCountsSnoc(d: seq<int>, s: seq<int>, y: int)
    requires NoDuplicates(d)
    ensures SumCounts(d, s + [y]) == SumCounts(d, s) + (if y in d then 1 else 0)
  {
    if d != [] {
      var init := d[..|d| - 1];
      SumCountsSnoc(init, s, y);
      assert (s + [y])[..|s + [y]| - 1] == s;
      assert d == init + [d[|d| - 1]];
    }
  }

  lemma {:induction false} CountAbsent(s: seq<int>, x: int)
    ensures Count(s, x) == 0 <==> x !in s
  {
    if s != [] {
      CountAbsent(s[..|s| - 1], x);
      assert s == s[..|s| - 1] + [s[|s| - 1]];
    }
  }

  /** The counts of the distinct elements add up to the length. */
  lemma {:induction false} CountsSumToLength(s: seq<int>)
    ensures SumCounts(FirstAppearances(s), s) == |s|
  {
    if s != [] {
      var init, y := s[..|s| - 1], s[|s| - 1];
      assert s == init + [y];
      CountsSumToLength(init);
      FirstAppearancesCorrect(init);
      SumCountsSnoc(FirstAppearances(init), init, y);
      if y !in init {
        var d := FirstAppearances(init);
        assert (d + [y])[..|d + [y]| - 1] == d;
        CountAbsent(init, y);
      }
    }
  }

  lemma {:induction false} CountAppend(a: seq<int>, b: seq<int>, x: int)
    ensures Count(a + b, x) == Count(a, x) + Count(b, x)
    decreases |b|
  {
    if b != [] {
      var init := b[..|b| - 1];
      assert (a + b)[..|a + b| - 1] == a + init;
      assert (a + b)[|a + b| - 1] == b[|b| - 1];
      CountAppend(a, init, x);
    } else {
      assert a + b == a;
    }
  }

  function SumQuantities(lines: seq<(int, int)>): int
  {
    if lines == [] then 0 else SumQuantities(lines[..|lines| - 1]) + lines[|lines| - 1].1
  }

  lemma {:induction false} SumQuantitiesIsSumCounts(lines: seq<(int, int)>, s: seq<int>)
    requires forall k | 0 <= k < |lines| :: lines[k].1 == Count(s, lines[k].0)
    ensures SumQuantities(lines) == SumCounts(LineIds(lines), s)
  {
    if lines != [] {
      var init := lines[..|lines| - 1];
      assert LineIds(lines)[..|lines| - 1] == LineIds(init);
      SumQuantitiesIsSumCounts(init, s);
    }
  }

  // ---------------------------------------------------------------------------
  // calculateProductQuantities

  /** Steps the first-appearance list by one element. */
  lemma FirstAppearancesStep(s: seq<int>, i: nat)
    requires i < |s|
    ensures FirstAppearances(s[..i + 1]) ==
      if s[i] in s[..i] then FirstAppearances(s[..i]) else FirstAppearances(s[..i]) + [s[i]]
  {
    assert s[..i + 1][..i] == s[..i];
  }

  /** calculateProductQuantities: for each part of the sale, counts its id over the
      whole sale and records (id, count) unless the id is already recorded. */
  method CalculateProductQuantities(sale: seq<Part>) returns (quantities: seq<(int, int)>)
    ensures LineIds(quantities) == FirstAppearances(PartIds(sale))
    ensures forall k | 0 <= k < |quantities| :: quantities[k].1 == Count(PartIds(sale), quantities[k].0)
  {
    ghost var ids := PartIds(sale);
    quantities := [];
    for i := 0 to |sale|
      invariant LineIds(quantities) == FirstAppearances(ids[..i])
      invariant forall k | 0 <= k < |quantities| :: quantities[k].1 == Count(ids, quantities[k].0)
    {
      var c := sale[i];
      var quantity := 0;
      for j := 0 to |sale|
        invariant quantity == Count(ids[..j], c.id)
      {
        assert ids[..j + 1][..j] == ids[..j];
        if sale[j].id == c.id {
          quantity := quantity + 1;
        }
      }
      assert ids[..|sale|] == ids;
      var found := false;
      var k := 0;
      while k < |quantities| && !found
        invariant 0 <= k <= |quantities|
        invariant found <==> exists m | 0 <= m < k :: quantities[m].0 == c.id
      {
        if quantities[k].0 == c.id {
          found := true;
        }
        k := k + 1;
      }
      FirstAppearancesCorrect(ids[..i]);
      FirstAppearancesStep(ids, i);
      assert found <==> c.id in LineIds(quantities);
      if !found {
        quantities := quantities + [(c.id, quantity)];
        assert LineIds(quantities) == LineIds(quantities[..|quantities| - 1]) + [c.id];
      }
    }
    assert ids[..|sale|] == ids;
  }

  /** What the stock check receives: each id of the sale exactly once, in order of
      first appearance, with its number of units; the units add up to the sale. */
  lemma ProductQuantitiesSummary(sale: seq<Part>, quantities: seq<(int, int)>)
    requires LineIds(quantities) == FirstAppearances(PartIds(sale))
    requires forall k | 0 <= k < |quantities| :: quantities[k].1 == Count(PartIds(sale), quantities[k].0)
    ensures NoDuplicates(LineIds(quantities))
    ensures forall id :: id in LineIds(quantities) <==> id in PartIds(sale)
    ensures forall k | 0 <= k < |quantities| :: quantities[k].1 >= 1
    ensures SumQuantities(quantities) == |sale|
  {
    FirstAppearancesCorrect(PartIds(sale));
    CountsSumToLength(PartIds(sale));
    SumQuantitiesIsSumCounts(quantities, PartIds(sale));
    forall k | 0 <= k < |quantities| ensures quantities[k].1 >= 1 {
      assert LineIds(quantities)[k] in PartIds(sale);
      CountAbsent(PartIds(sale), quantities[k].0);
    }
  }

  // ---------------------------------------------------------------------------
  // The combo's parts: expansion and base price

  /** A ComboDetalle as the sale reads it. */
  datatype DetailRow = DetailRow(component: Option<Part>, quantity: int)

  function DetailRows(details: seq<ComboDetail>): (rows: seq<DetailRow>)
    reads details
    ensures |rows| == |details|
    ensures forall k | 0 <= k < |details| :: rows[k] == DetailRow(details[k].component, details[k].quantity)
  {
    seq(|details|, k reads details requires 0 <= k < |details| => DetailRow(details[k].component, details[k].quantity))
  }

  /** The number of iterations of `for (i = 0; i < cantidad; i++)`. */
  function Units(quantity: int): nat
  {
    if quantity < 0 then 0 else quantity
  }

  function Repeat(p: Part, n: nat): (r: seq<Part>)
    ensures |r| == n && forall k | 0 <= k < n :: r[k] == p
  {
    if n == 0 then [] else Repeat(p, n - 1) + [p]
  }

  /** The combo's contribution to the sale: each detail's component `cantidad` times,
      or nothing at all (null purchase data) when a detail has no component. */
  function Expand(rows: seq<DetailRow>): Option<seq<Part>>
  {
    if rows == [] then Some([])
    else if rows[0].component.None? then None
    else
      match Expand(rows[1..])
      case None => None
      case Some(rest) => Some(Repeat(rows[0].component.value, Units(rows[0].quantity)) + rest)
  }

  /** The units that the details give to one part id. */
  function UnitsFor(rows: seq<DetailRow>, id: int): nat
  {
    if rows == [] then 0
    else
      var own := if rows[0].component.Some? && rows[0].component.value.id == id then Units(rows[0].quantity) else 0;
      own + UnitsFor(rows[1..], id)
  }

  function TotalUnits(rows: seq<DetailRow>): nat
  {
    if rows == [] then 0 else Units(rows[0].quantity) + TotalUnits(rows[1..])
  }

  lemma CountRepeat(p: Part, n: nat, x: int)
    ensures Count(PartIds(Repeat(p, n)), x) == if p.id == x then n else 0
  {
    if n > 0 {
      assert PartIds(Repeat(p, n))[..n - 1] == PartIds(Repeat(p, n - 1));
      CountRepeat(p, n - 1, x);
    }
  }

  /** The expansion fails exactly on a detail without a component; otherwise it holds
      every unit of every detail, and each part id as often as its details ask. */
  lemma {:induction false} ExpandCorrect(rows: seq<DetailRow>)
    ensures Expand(rows).None? <==> exists k | 0 <= k < |rows| :: rows[k].component.None?
    ensures Expand(rows).Some? ==> |Expand(rows).value| == TotalUnits(rows)
    ensures Expand(rows).Some? ==> forall id :: Count(PartIds(Expand(rows).value), id) == UnitsFor(rows, id)
  {
    if rows != [] {
      ExpandCorrect(rows[1..]);
      assert forall k | 1 <= k < |rows| :: rows[k] == rows[1..][k - 1];
      if Expand(rows).Some? {
        var p := rows[0].component.value;
        var head, rest := Repeat(p, Units(rows[0].quantity)), Expand(rows[1..]).value;
        assert PartIds(head + rest) == PartIds(head) + PartIds(rest);
        forall id ensures Count(PartIds(Expand(rows).value), id) == UnitsFor(rows, id) {
          CountAppend(PartIds(head), PartIds(rest), id);
          CountRepeat(p, Units(rows[0].quantity), id);
        }
      }
    }
  }

  /** Puts the parts already added in front of what the remaining details add. */
  function PrependParts(done: seq<Part>, rest: Option<seq<Part>>): Option<seq<Part>>
  {
    match rest
    case None => None
    case Some(r) => Some(done + r)
  }

  lemma ExpandStep(rows: seq<DetailRow>, i: nat, done: seq<Part>)
    requires i < |rows| && rows[i].component.Some?
    ensures PrependParts(done, Expand(rows[i..])) ==
      PrependParts(done + Repeat(rows[i].component.value, Units(rows[i].quantity)), Expand(rows[i + 1..]))
  {
    assert rows[i..][1..] == rows[i + 1..];
    match Expand(rows[i + 1..])
    case None =>
    case Some(r) =>
      assert done + (Repeat(rows[i].component.value, Units(rows[i].quantity)) + r)
          == done + Repeat(rows[i].component.value, Units(rows[i].quantity)) + r;
  }

  lemma ExpandHitsMissing(rows: seq<DetailRow>, i: nat)
    requires i < |rows| && rows[i].component.None?
    ensures Expand(rows[i..]).None?
  {
  }

  /** The combo half of collectPurchaseData: a combo with no details gives no data;
      otherwise its details are expanded in order. */
  method ExpandCombo(combo: Combo) returns (sale: Option<seq<Part>>)
    ensures var rows := DetailRows(combo.DetailList());
      sale == if rows == [] then None else Expand(rows)
  {
    var details := combo.DetailList();
    if |details| == 0 {
      return None;
    }
    ghost var rows := DetailRows(details);
    var added: seq<Part> := [];
    var i := 0;
    assert rows[0..] == rows;
    match Expand(rows) {
      case None =>
      case Some(r) => assert [] + r == r;
    }
    while i < |details|
      invariant 0 <= i <= |details|
      invariant Expand(rows) == PrependParts(added, Expand(rows[i..]))
    {
      var detail := details[i];
      if detail.component.None? {
        ExpandHitsMissing(rows, i);
        return None;
      }
      var part := detail.component.value;
      ExpandStep(rows, i, added);
      ghost var before := added;
      var j := 0;
      while j < detail.quantity
        invariant 0 <= j <= Units(detail.quantity) && added == before + Repeat(part, j)
      {
        added := added + [part];
        j := j + 1;
      }
      assert j == Units(detail.quantity);
      i := i + 1;
    }
    assert added + [] == added;
    return Some(added);
  }

  /** Each id's quantity in a combo-only sale is the units its details ask for. */
  lemma ComboSaleQuantities(rows: seq<DetailRow>, sale: seq<Part>, quantities: seq<(int, int)>)
    requires Expand(rows) == Some(sale)
    requires forall k | 0 <= k < |quantities| :: quantities[k].1 == Count(PartIds(sale), quantities[k].0)
    ensures forall k | 0 <= k < |quantities| :: quantities[k].1 == UnitsFor(rows, quantities[k].0)
  {
    ExpandCorrect(rows);
  }

  /** The base price: BigDecimal price times `cantidad` summed over the details whose
      component and price are both present. */
  function BasePrice(rows: seq<DetailRow>): real
  {
    if rows == [] then 0.0 else LineCost(rows[0]) + BasePrice(rows[1..])
  }

  /** price.multiply(new BigDecimal(cantidad)), or nothing for an unpriced detail. */
  function LineCost(row: DetailRow): real
  {
    if Priced(row) then row.component.value.price.value * row.quantity as real else 0.0
  }

  predicate Priced(row: DetailRow)
  {
    row.component.Some? && row.component.value.price.Some?
  }

  /** cargarCombos' hasValidComponents. */
  predicate HasPricedRow(rows: seq<DetailRow>)
  {
    exists k | 0 <= k < |rows| :: Priced(rows[k])
  }

  /** The prices of the parts of a sale, a part without price counting nothing. */
  function PriceSum(parts: seq<Part>): real
  {
    if parts == [] then 0.0 else (if parts[0].price.Some? then parts[0].price.value else 0.0) + PriceSum(parts[1..])
  }

  lemma {:induction false} PriceSumAppend(a: seq<Part>, b: seq<Part>)
    ensures PriceSum(a + b) == PriceSum(a) + PriceSum(b)
  {
    if a != [] {
      assert (a + b)[1..] == a[1..] + b;
      PriceSumAppend(a[1..], b);
    } else {
      assert a + b == b;
    }
  }

  lemma {:induction false} PriceSumRepeat(p: Part, n: nat)
    requires p.price.Some?
    ensures PriceSum(Repeat(p, n)) == LineCost(DetailRow(Some(p), n))
  {
    if n > 0 {
      PriceSumAppend(Repeat(p, n - 1), [p]);
      PriceSumRepeat(p, n - 1);
    }
  }

  /** When every detail is priced and no quantity is negative, the base price is what
      the parts of the expanded combo cost one by one. */
  lemma {:induction false} BasePriceIsPriceOfExpansion(rows: seq<DetailRow>)
    requires forall k | 0 <= k < |rows| :: Priced(rows[k]) && rows[k].quantity >= 0
    ensures Expand(rows).Some? && BasePrice(rows) == PriceSum(Expand(rows).value)
  {
    if rows != [] {
      assert forall k | 0 <= k < |rows[1..]| :: rows[1..][k] == rows[k + 1];
      BasePriceIsPriceOfExpansion(rows[1..]);
      var p, n := rows[0].component.value, Units(rows[0].quantity);
      var head, rest := Repeat(p, n), Expand(rows[1..]).value;
      assert Expand(rows) == Some(head + rest);
      PriceSumAppend(head, rest);
      PriceSumRepeat(p, n);
      assert rows[0] == DetailRow(Some(p), n);
    }
  }

  lemma {:induction false} BasePriceNonNegative(rows: seq<DetailRow>)
    requires forall k | 0 <= k < |rows| :: rows[k].quantity >= 0
    requires forall k | 0 <= k < |rows| :: Priced(rows[k]) ==> rows[k].component.value.price.value >= 0.0
    ensures BasePrice(rows) >= 0.0
  {
    if rows != [] {
      assert forall k | 0 <= k < |rows[1..]| :: rows[1..][k] == rows[k + 1];
      BasePriceNonNegative(rows[1..]);
    }
  }

  lemma BasePriceStep(rows: seq<DetailRow>, i: nat)
    requires i < |rows|
    ensures BasePrice(rows[i..]) == LineCost(rows[i]) + BasePrice(rows[i + 1..])
  {
    assert rows[i..][1..] == rows[i + 1..];
  }

  /** The price loop of cargarCombos and actualizarTotal, with the flag that records
      whether any detail had a priced component. */
  method SumComboPrice(details: seq<ComboDetail>) returns (total: real, hasValidComponents: bool)
    ensures total == BasePrice(DetailRows(details))
    ensures hasValidComponents <==> HasPricedRow(DetailRows(details))
  {
    ghost var rows := DetailRows(details);
    total, hasValidComponents := 0.0, false;
    assert rows[0..] == rows;
    for i := 0 to |details|
      invariant BasePrice(rows) == total + BasePrice(rows[i..])
      invariant hasValidComponents <==> exists k | 0 <= k < i :: Priced(rows[k])
    {
      BasePriceStep(rows, i);
      var detail := details[i];
      if detail.component.Some? && detail.component.value.price.Some? {
        total := total + detail.component.value.price.value * detail.quantity as real;
        hasValidComponents := true;
      }
    }
  }

  /** The price a combo is listed at in the sale form, or None when cargarCombos skips
      it: no details, no priced component, or a negative discounted price. */
  method ComboListing(combo: Combo) returns (listed: Option<real>)
    ensures var rows := DetailRows(combo.DetailList());
      var final := if combo.discount.None? then BasePrice(rows) else DiscountedPrice(BasePrice(rows), combo.discount.value);
      && (listed.Some? <==> HasPricedRow(rows) && final >= 0.0)
      && (listed.Some? ==> listed.value == final)
    ensures var rows := DetailRows(combo.DetailList());
      (HasPricedRow(rows) && (forall k | 0 <= k < |rows| :: rows[k].quantity >= 0)
       && (forall k | 0 <= k < |rows| :: Priced(rows[k]) ==> rows[k].component.value.price.value >= 0.0)
       && (combo.discount.Some? ==> 0.0 <= combo.discount.value <= 100.0))
      ==> listed.Some? && 0.0 <= listed.value <= BasePrice(rows)
  {
    var details := combo.DetailList();
    ghost var rows := DetailRows(details);
    if |details| == 0 {
      return None;
    }
    var original, hasValidComponents := SumComboPrice(details);
    if !hasValidComponents {
      return None;
    }
    if (forall k | 0 <= k < |rows| :: rows[k].quantity >= 0)
       && (forall k | 0 <= k < |rows| :: Priced(rows[k]) ==> rows[k].component.value.price.value >= 0.0) {
      BasePriceNonNegative(rows);
    }
    var final := combo.CalculateDiscountedPrice(Some(original));
    if final.None? || final.value < 0.0 {
      return None;
    }
    return final;
  }
}
