/** The persistence side of ComboService: the discount, detail-list and id guards that
    run before the combo table is touched. ComboDAO is not part of this model; its effect
    on the Combo and Combo_Detalle tables is a map from combo id to a row. */
module ComboService {
  import opened Outcomes
  import opened Parts
  import opened ComboEntity
  import opened ComboCompatibility

  /** A Combo row with its Combo_Detalle lines as (component id, quantity) pairs. */
  datatype ComboRow = ComboRow(discount: real, name: Option<string>, lines: seq<(int, int)>)

  function DetailLines(details: seq<ComboDetail>): (lines: seq<(int, int)>)
    reads details
    ensures |lines| == |details|
    ensures forall k | 0 <= k < |details| :: lines[k] == (details[k].componentId, details[k].quantity)
  {
    if details == [] then [] else [(details[0].componentId, details[0].quantity)] + DetailLines(details[1..])
  }

  /** The discount guard of addCombo and updateCombo. */
  predicate DiscountInRange(discount: Option<real>)
  {
    discount.Some? && 0.0 <= discount.value <= 100.0
  }

  function OrEmpty(details: Option<seq<ComboDetail>>): seq<ComboDetail>
  {
    if details.Some? then details.value else []
  }

  /** The Combo table with its serial key. */
  class ComboTable {
    var rows: map<int, ComboRow>
    var nextId: int

    ghost predicate Valid()
      reads this
    {
      nextId > 0 && forall id | id in rows :: 0 < id < nextId
    }

    constructor ()
      ensures Valid() && rows == map[]
    {
      rows := map[];
      nextId := 1;
    }

    /** INSERT ... RETURNING ComboID: a fresh positive key. */
    method Insert(row: ComboRow) returns (id: int)
      requires Valid()
      modifies this
      ensures Valid()
      ensures id == old(nextId) && 0 < id && id !in old(rows)
      ensures rows == old(rows)[id := row]
    {
      id := nextId;
      rows := rows[id := row];
      nextId := nextId + 1;
    }

    /** UPDATE Combo plus the replacement of its Combo_Detalle lines, in one
        transaction. For an absent key the UPDATE and the DELETE match no row, and the
        INSERT of a detail line under that key breaks the Combo_Detalle foreign key
        (the one the ON DELETE CASCADE of deleteCombo relies on): the transaction is
        rolled back and the SQLException rethrown. The caller only comes here with at
        least one detail line. */
    method Update(id: int, row: ComboRow) returns (raised: bool)
      requires Valid() && row.lines != []
      modifies this
      ensures Valid() && nextId == old(nextId)
      ensures raised <==> id !in old(rows)
      ensures rows == if raised then old(rows) else old(rows)[id := row]
    {
      raised := id !in rows;
      if !raised {
        rows := rows[id := row];
      }
    }

    /** DELETE FROM Combo, cascading to the detail lines. */
    method Delete(id: int)
      requires Valid()
      modifies this
      ensures Valid() && nextId == old(nextId)
      ensures rows == old(rows) - {id}
    {
      rows := rows - {id};
    }

    function Get(id: int): (r: Option<ComboRow>)
      reads this
      ensures r.Some? <==> id in rows
      ensures r.Some? ==> r.value == rows[id]
    {
      if id in rows then Some(rows[id]) else None
    }
  }

  /** addCombo: the discount guard, then the detail-list guard, then the compatibility
      validator, and only then the insert, which assigns the new id to the combo. */
  method AddCombo(table: ComboTable, combo: Combo, catalog: map<int, Part>) returns (r: Outcome<ComboError>)
    requires table.Valid()
    modifies table, combo, combo.DetailList()
    ensures table.Valid()
    ensures combo.discount == old(combo.discount) && combo.details == old(combo.details) && combo.name == old(combo.name)
    ensures !DiscountInRange(old(combo.discount)) ==> r == Fail(InvalidDiscount)
    ensures DiscountInRange(old(combo.discount)) && old(combo.DetailList()) == [] ==> r == Fail(NoDetails)
    ensures DiscountInRange(old(combo.discount)) && old(combo.DetailList()) != [] ==>
              r == Validate(old(ComponentIds(combo.DetailList())), catalog)
    ensures forall d | d in combo.DetailList() ::
              d.comboId == old(d.comboId) && d.componentId == old(d.componentId) && d.quantity == old(d.quantity)
    ensures !DiscountInRange(old(combo.discount)) || old(combo.DetailList()) == [] ==>
              forall d | d in old(combo.DetailList()) :: d.component == old(d.component)
    ensures DiscountInRange(old(combo.discount)) && old(combo.DetailList()) != [] ==>
              var ds := combo.DetailList();
              var n := AttachedCount(old(ComponentIds(combo.DetailList())), catalog);
              && (forall k | 0 <= k < n :: ds[k].componentId in catalog && ds[k].component == Some(catalog[ds[k].componentId]))
              && (forall d | d in ds && d !in ds[..n] :: d.component == old(d.component))
    ensures r.Fail? ==> table.rows == old(table.rows) && table.nextId == old(table.nextId) && combo.comboId == old(combo.comboId)
    ensures r.Pass? ==>
              && combo.comboId == old(table.nextId) && combo.comboId !in old(table.rows)
              && table.rows == old(table.rows)[combo.comboId := ComboRow(old(combo.discount).value, old(combo.name), old(DetailLines(combo.DetailList())))]
  {
    var discount := combo.discount;
    if discount.None? || discount.value < 0.0 || discount.value > 100.0 {
      return Fail(InvalidDiscount);
    }
    var details := combo.DetailList();
    if details == [] {
      return Fail(NoDetails);
    }
    ghost var lines := DetailLines(details);
    r := ValidateComboCompatibility(details, catalog);
    if r.Fail? {
      return;
    }
    assert DetailLines(details) == lines;
    var id := table.Insert(ComboRow(discount.value, combo.name, DetailLines(details)));
    combo.comboId := id;
  }

  /** updateCombo: the id guard, the discount guard and the guard on the new detail list,
      then the validator on the new details, and only then the update. `raised` is the
      SQLException the update throws for an id with no stored combo. */
  method UpdateCombo(table: ComboTable, combo: Combo, newDetails: Option<seq<ComboDetail>>, catalog: map<int, Part>)
      returns (r: Outcome<ComboError>, raised: bool)
    requires table.Valid()
    modifies table, OrEmpty(newDetails)
    ensures table.Valid() && table.nextId == old(table.nextId)
    ensures old(combo.comboId) <= 0 ==> r == Fail(InvalidComboId)
    ensures old(combo.comboId) > 0 && !DiscountInRange(combo.discount) ==> r == Fail(InvalidDiscount)
    ensures old(combo.comboId) > 0 && DiscountInRange(combo.discount) && OrEmpty(newDetails) == [] ==> r == Fail(NoDetails)
    ensures old(combo.comboId) > 0 && DiscountInRange(combo.discount) && OrEmpty(newDetails) != [] ==>
              r == Validate(old(ComponentIds(OrEmpty(newDetails))), catalog)
    ensures forall d | d in OrEmpty(newDetails) ::
              d.comboId == old(d.comboId) && d.componentId == old(d.componentId) && d.quantity == old(d.quantity)
    ensures combo.comboId <= 0 || !DiscountInRange(combo.discount) || OrEmpty(newDetails) == [] ==>
              forall d | d in OrEmpty(newDetails) :: d.component == old(d.component)
    ensures combo.comboId > 0 && DiscountInRange(combo.discount) && OrEmpty(newDetails) != [] ==>
              var ds := OrEmpty(newDetails);
              var n := AttachedCount(old(ComponentIds(ds)), catalog);
              && (forall k | 0 <= k < n :: ds[k].componentId in catalog && ds[k].component == Some(catalog[ds[k].componentId]))
              && (forall d | d in ds && d !in ds[..n] :: d.component == old(d.component))
    ensures raised ==> r.Pass?
    ensures r.Fail? || raised ==> table.rows == old(table.rows)
    ensures r.Pass? ==> (raised <==> combo.comboId !in old(table.rows))
    ensures r.Pass? && !raised ==>
              table.rows == old(table.rows)[combo.comboId := ComboRow(combo.discount.value, combo.name, old(DetailLines(OrEmpty(newDetails))))]
  {
    raised := false;
    if combo.comboId <= 0 {
      return Fail(InvalidComboId), false;
    }
    var discount := combo.discount;
    if discount.None? || discount.value < 0.0 || discount.value > 100.0 {
      return Fail(InvalidDiscount), false;
    }
    if newDetails.None? || newDetails.value == [] {
      return Fail(NoDetails), false;
    }
    var details := newDetails.value;
    ghost var lines := DetailLines(details);
    r := ValidateComboCompatibility(details, catalog);
    if r.Fail? {
      return;
    }
    assert DetailLines(details) == lines;
    raised := table.Update(combo.comboId, ComboRow(discount.value, combo.name, DetailLines(details)));
  }

  /** deleteCombo: the id guard, then the delete. */
  method DeleteCombo(table: ComboTable, comboId: int) returns (r: Outcome<ComboError>)
    requires table.Valid()
    modifies table
    ensures table.Valid() && table.nextId == old(table.nextId)
    ensures r.Fail? <==> comboId <= 0
    ensures r.Fail? ==> r.error == InvalidComboId && table.rows == old(table.rows)
    ensures r.Pass? ==> table.rows == old(table.rows) - {comboId}
  {
    if comboId <= 0 {
      return Fail(InvalidComboId);
    }
    table.Delete(comboId);
    return Pass;
  }

  /** getComboById: the id guard, then the lookup, which yields nothing for an absent id. */
  function GetComboById(table: ComboTable, comboId: int): (r: Result<Option<ComboRow>, ComboError>)
    reads table
    ensures r.Failure? <==> comboId <= 0
    ensures r.Failure? ==> r.error == InvalidComboId
    ensures r.Success? ==> (r.value.Some? <==> comboId in table.rows)
    ensures r.Success? && r.value.Some? ==> r.value.value == table.rows[comboId]
  {
    if comboId <= 0 then Failure(InvalidComboId) else Success(table.Get(comboId))
  }
}
