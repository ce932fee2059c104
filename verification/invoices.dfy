/** The Factura table as the purchase sees it, through FacturaService and FacturaDAO:
    rows keyed by invoice id. FacturaDAO opens its own autocommit connection, so a row
    it writes is not part of the purchase's transaction. */
module Invoices {
  import opened Outcomes

  /** A Factura row: its id, the customer and the combo sold, if any. The order date and
      the float total are not modelled. */
  datatype Invoice = Invoice(id: string, customerId: int, comboId: Option<int>)

  datatype InsertError = NullComboId | DuplicateId

  /** insertFactura as written: the combo id is passed as `cond ? comboID : null`, an
      Integer that setInt unboxes, so an invoice without a combo raises a
      NullPointerException before the INSERT runs. A repeated invoice id violates the
      key of the table. */
  function InsertAsWritten(rows: map<string, Invoice>, inv: Invoice): Result<map<string, Invoice>, InsertError>
  {
    if inv.comboId.None? then Failure(NullComboId)
    else if inv.id in rows then Failure(DuplicateId)
    else Success(rows[inv.id := inv])
  }

  /** insertFactura as intended: a missing combo is stored as SQL NULL; only a repeated
      invoice id is refused. */
  function Insert(rows: map<string, Invoice>, inv: Invoice): (r: Result<map<string, Invoice>, InsertError>)
    ensures r.Success? <==> inv.id !in rows
    ensures r.Failure? ==> r.error == DuplicateId
    ensures r.Success? ==> r.value.Keys == rows.Keys + {inv.id} && r.value[inv.id] == inv
    ensures r.Success? ==> forall other | other in rows :: r.value[other] == rows[other]
  {
    if inv.id in rows then Failure(DuplicateId) else Success(rows[inv.id := inv])
  }

  /** The two agree on every invoice that names a combo. */
  lemma InsertAgreesWhenComboSold(rows: map<string, Invoice>, inv: Invoice)
    requires inv.comboId.Some?
    ensures InsertAsWritten(rows, inv) == Insert(rows, inv)
  {
  }

  /** Any invoice without a combo is refused as written, even with a fresh id that the
      intended insert accepts. */
  lemma ComboLessInvoiceRefusedAsWritten(rows: map<string, Invoice>, inv: Invoice)
    requires inv.comboId.None? && inv.id !in rows
    ensures InsertAsWritten(rows, inv) == Failure(NullComboId)
    ensures Insert(rows, inv) == Success(rows[inv.id := inv])
  {
  }

  lemma ComboLessInvoiceExample()
    ensures InsertAsWritten(map[], Invoice("INV-20250101-120000-123", 7, None)).Failure?
    ensures Insert(map[], Invoice("INV-20250101-120000-123", 7, None)).Success?
  {
  }

  class InvoiceTable {
    var rows: map<string, Invoice>

    constructor (initial: map<string, Invoice>)
      ensures rows == initial
    {
      rows := initial;
    }

    /** registrarFactura with the intended insert; false when the insert is refused. */
    method InsertFactura(inv: Invoice) returns (ok: bool)
      modifies this
      ensures ok <==> Insert(old(rows), inv).Success?
      ensures rows == if ok then Insert(old(rows), inv).value else old(rows)
    {
      var r := Insert(rows, inv);
      ok := r.Success?;
      if ok {
        rows := r.value;
      }
    }

    /** A rollback to the rows of a snapshot. */
    method Restore(snapshot: map<string, Invoice>)
      modifies this
      ensures rows == snapshot
    {
      rows := snapshot;
    }

    function FacturaExists(id: string): (r: bool)
      reads this
      ensures r <==> id in rows
    {
      id in rows
    }
  }
}
