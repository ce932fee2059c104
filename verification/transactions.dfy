/** TransactionService: a purchase checks every line, creates the invoice and then
    decrements each line's stock, inside one JDBC transaction over the stock table.
    The invoice is written by FacturaService on its own autocommit connection, so the
    rollback restores the stock levels and never the invoice rows. */
module Transactions {
  import opened Outcomes
  import opened StockLedger
  import opened Invoices

  /** A purchase line: (component id, quantity). */
  type Line = (int, int)

  /** Where an SQLException is raised, if anywhere: in the availability query or in the
      decrement of the line with that index. */
  datatype Fault = NoFault | CheckThrows(line: nat) | DecrementThrows(line: nat)

  datatype Step = StockCheck | InvoiceInsert | StockReduction

  /** true, false at a step (after the rollback), or an SQLException rethrown after
      the rollback. */
  datatype PurchaseOutcome = Committed | Declined(step: Step) | Raised

  datatype CheckResult = AllAvailable | Unavailable | CheckRaised

  datatype ReduceStatus = AllReduced | ZeroRows | ReduceRaised

  /** Where the decrements stopped, and the levels at that point. */
  datatype Reduction = Reduction(status: ReduceStatus, levels: map<int, int>)

  datatype PurchaseState = PurchaseState(outcome: PurchaseOutcome, levels: map<int, int>, invoices: map<string, Invoice>)

  // ---------------------------------------------------------------------------
  // The three steps as functions

  /** isStockAvailableInTransaction: false when the row is missing. */
  function AvailableInTransaction(levels: map<int, int>, id: int, required: int): (r: bool)
    ensures r == Available(levels, id, required)
    ensures r ==> CanDecrement(levels, id, required)
  {
    if id in levels then
      var current := levels[id];
      current >= required && current > 0
    else false
  }

  /** validateStockAvailability from line i on. */
  function CheckFrom(levels: map<int, int>, lines: seq<Line>, i: nat, fault: Fault): CheckResult
    requires i <= |lines|
    decreases |lines| - i
  {
    if i == |lines| then AllAvailable
    else if fault == CheckThrows(i) then CheckRaised
    else if !AvailableInTransaction(levels, lines[i].0, lines[i].1) then Unavailable
    else CheckFrom(levels, lines, i + 1, fault)
  }

  /** reduceStockInTransaction from line i on. */
  function ReduceFrom(levels: map<int, int>, lines: seq<Line>, i: nat, fault: Fault): Reduction
    requires i <= |lines|
    decreases |lines| - i
  {
    if i == |lines| then Reduction(AllReduced, levels)
    else if fault == DecrementThrows(i) then Reduction(ReduceRaised, levels)
    else if !CanDecrement(levels, lines[i].0, lines[i].1) then Reduction(ZeroRows, levels)
    else ReduceFrom(Decremented(levels, lines[i].0, lines[i].1), lines, i + 1, fault)
  }

  /** executeCompletePurchaseTransaction as written. */
  function Purchase(levels: map<int, int>, invoices: map<string, Invoice>, inv: Invoice, lines: seq<Line>, fault: Fault): PurchaseState
  {
    match CheckFrom(levels, lines, 0, fault)
    case CheckRaised => PurchaseState(Raised, levels, invoices)
    case Unavailable => PurchaseState(Declined(StockCheck), levels, invoices)
    case AllAvailable =>
      match Insert(invoices, inv)
      case Failure(_) => PurchaseState(Declined(InvoiceInsert), levels, invoices)
      case Success(written) =>
        var reduction := ReduceFrom(levels, lines, 0, fault);
        match reduction.status
        case AllReduced => PurchaseState(Committed, reduction.levels, written)
        case ZeroRows => PurchaseState(Declined(StockReduction), levels, written)
        case ReduceRaised => PurchaseState(Raised, levels, written)
  }

  /** The purchase the class comment promises: any failure undoes the invoice as well. */
  function AtomicPurchase(levels: map<int, int>, invoices: map<string, Invoice>, inv: Invoice, lines: seq<Line>, fault: Fault): PurchaseState
  {
    var p := Purchase(levels, invoices, inv, lines, fault);
    if p.outcome.Committed? then p else PurchaseState(p.outcome, levels, invoices)
  }

  // ---------------------------------------------------------------------------
  // Reference definitions

  /** The total quantity the lines from i on ask of one id. */
  function TotalFrom(lines: seq<Line>, i: nat, id: int): int
    requires i <= |lines|
    decreases |lines| - i
  {
    if i == |lines| then 0
    else (if lines[i].0 == id then lines[i].1 else 0) + TotalFrom(lines, i + 1, id)
  }

  function Total(lines: seq<Line>, id: int): int
  {
    TotalFrom(lines, 0, id)
  }

  predicate Listed(lines: seq<Line>, id: int)
  {
    exists k | 0 <= k < |lines| :: lines[k].0 == id
  }

  predicate DistinctIds(lines: seq<Line>)
  {
    forall a, b | 0 <= a < b < |lines| :: lines[a].0 != lines[b].0
  }

  predicate CheckFaultReached(lines: seq<Line>, fault: Fault)
  {
    fault.CheckThrows? && fault.line < |lines|
  }

  /** validateTransactionConsistency without exceptions: the invoice exists and no
      listed part has a negative level (an unknown part reads as -1). */
  predicate Consistent(levels: map<int, int>, invoices: map<string, Invoice>, invoiceId: string, lines: seq<Line>)
  {
    invoiceId in invoices && forall k | 0 <= k < |lines| :: Level(levels, lines[k].0) >= 0
  }

  // ---------------------------------------------------------------------------
  // Lemmas about the steps

  lemma {:induction false} CheckFromPasses(levels: map<int, int>, lines: seq<Line>, i: nat, fault: Fault)
    requires i <= |lines|
    ensures CheckFrom(levels, lines, i, fault) == AllAvailable <==>
      forall k | i <= k < |lines| :: fault != CheckThrows(k) && Available(levels, lines[k].0, lines[k].1)
    ensures CheckFrom(levels, lines, i, fault) == CheckRaised ==>
      fault.CheckThrows? && i <= fault.line < |lines|
    decreases |lines| - i
  {
    if i < |lines| {
      CheckFromPasses(levels, lines, i + 1, fault);
    }
  }

  /** Every line is checked: the check passes exactly when every line is available and
      no availability query raises. */
  lemma CheckPassesIffAllAvailable(levels: map<int, int>, lines: seq<Line>, fault: Fault)
    ensures CheckFrom(levels, lines, 0, fault) == AllAvailable <==>
      !CheckFaultReached(lines, fault) && forall k | 0 <= k < |lines| :: Available(levels, lines[k].0, lines[k].1)
  {
    CheckFromPasses(levels, lines, 0, fault);
  }

  lemma {:induction false} TotalFromUnlisted(lines: seq<Line>, i: nat, id: int)
    requires i <= |lines|
    requires forall k | i <= k < |lines| :: lines[k].0 != id
    ensures TotalFrom(lines, i, id) == 0
    decreases |lines| - i
  {
    if i < |lines| {
      TotalFromUnlisted(lines, i + 1, id);
    }
  }

  /** A completed reduction subtracts each id's total and leaves every listed level
      non-negative. */
  lemma {:induction false} ReduceFromEffect(levels: map<int, int>, lines: seq<Line>, i: nat, fault: Fault)
    requires i <= |lines|
    ensures ReduceFrom(levels, lines, i, fault).status == AllReduced ==>
      && ReduceFrom(levels, lines, i, fault).levels.Keys == levels.Keys
      && (forall k | i <= k < |lines| :: lines[k].0 in levels)
      && (forall id | id in levels :: ReduceFrom(levels, lines, i, fault).levels[id] == levels[id] - TotalFrom(lines, i, id))
      && (forall k | i <= k < |lines| :: ReduceFrom(levels, lines, i, fault).levels[lines[k].0] >= 0)
    decreases |lines| - i
  {
    if i < |lines| && fault != DecrementThrows(i) && CanDecrement(levels, lines[i].0, lines[i].1) {
      var (id0, q) := lines[i];
      var next := Decremented(levels, id0, q);
      ReduceFromEffect(next, lines, i + 1, fault);
      var r := ReduceFrom(levels, lines, i, fault);
      assert r == ReduceFrom(next, lines, i + 1, fault);
      if r.status == AllReduced {
        if forall k | i + 1 <= k < |lines| :: lines[k].0 != id0 {
          TotalFromUnlisted(lines, i + 1, id0);
        }
      }
    }
  }

  /** Lines with distinct ids that can all be decremented are all decremented. */
  lemma {:induction false} DistinctLinesReduce(levels: map<int, int>, lines: seq<Line>, i: nat, fault: Fault)
    requires i <= |lines| && !fault.DecrementThrows?
    requires forall a, b | i <= a < b < |lines| :: lines[a].0 != lines[b].0
    requires forall k | i <= k < |lines| :: CanDecrement(levels, lines[k].0, lines[k].1)
    ensures ReduceFrom(levels, lines, i, fault).status == AllReduced
    decreases |lines| - i
  {
    if i < |lines| {
      var next := Decremented(levels, lines[i].0, lines[i].1);
      assert forall k | i + 1 <= k < |lines| :: CanDecrement(next, lines[k].0, lines[k].1) by {
        forall k | i + 1 <= k < |lines| ensures CanDecrement(next, lines[k].0, lines[k].1) {
          assert lines[k].0 != lines[i].0;
        }
      }
      DistinctLinesReduce(next, lines, i + 1, fault);
    }
  }

  // ---------------------------------------------------------------------------
  // What executeCompletePurchaseTransaction promises, and what it does not

  /** All-or-nothing on stock: unless the purchase commits, no level changes. */
  lemma StockUnchangedUnlessCommitted(levels: map<int, int>, invoices: map<string, Invoice>, inv: Invoice, lines: seq<Line>, fault: Fault)
    ensures Purchase(levels, invoices, inv, lines, fault).outcome != Committed ==>
      Purchase(levels, invoices, inv, lines, fault).levels == levels
  {
  }

  /** A failed check, or a refused invoice, changes nothing at all. */
  lemma FailedCheckChangesNothing(levels: map<int, int>, invoices: map<string, Invoice>, inv: Invoice, lines: seq<Line>, fault: Fault)
    requires CheckFaultReached(lines, fault) || exists k | 0 <= k < |lines| :: !Available(levels, lines[k].0, lines[k].1)
    ensures Purchase(levels, invoices, inv, lines, fault).outcome in {Declined(StockCheck), Raised}
    ensures Purchase(levels, invoices, inv, lines, fault).levels == levels
    ensures Purchase(levels, invoices, inv, lines, fault).invoices == invoices
  {
    CheckPassesIffAllAvailable(levels, lines, fault);
  }

  /** A commit writes the invoice and lowers each listed part by exactly its total;
      unlisted parts keep their level and no listed level is negative. */
  lemma CommittedEffect(levels: map<int, int>, invoices: map<string, Invoice>, inv: Invoice, lines: seq<Line>, fault: Fault)
    requires Purchase(levels, invoices, inv, lines, fault).outcome == Committed
    ensures var p := Purchase(levels, invoices, inv, lines, fault);
      && inv.id !in invoices && p.invoices == invoices[inv.id := inv]
      && (forall k | 0 <= k < |lines| :: Available(levels, lines[k].0, lines[k].1))
      && p.levels.Keys == levels.Keys
      && (forall id | id in levels :: p.levels[id] == levels[id] - Total(lines, id))
      && (forall id | id in levels && !Listed(lines, id) :: p.levels[id] == levels[id])
      && (forall k | 0 <= k < |lines| :: p.levels[lines[k].0] >= 0)
  {
    CheckPassesIffAllAvailable(levels, lines, fault);
    ReduceFromEffect(levels, lines, 0, fault);
    forall id | id in levels && !Listed(lines, id) ensures Total(lines, id) == 0 {
      TotalFromUnlisted(lines, 0, id);
    }
  }

  /** With distinct ids, fresh invoice id and no exception, a purchase whose lines are
      all available commits. */
  lemma DistinctAvailableLinesCommit(levels: map<int, int>, invoices: map<string, Invoice>, inv: Invoice, lines: seq<Line>)
    requires DistinctIds(lines) && inv.id !in invoices
    requires forall k | 0 <= k < |lines| :: Available(levels, lines[k].0, lines[k].1)
    ensures Purchase(levels, invoices, inv, lines, NoFault).outcome == Committed
  {
    CheckPassesIffAllAvailable(levels, lines, NoFault);
    forall k | 0 <= k < |lines| ensures CanDecrement(levels, lines[k].0, lines[k].1) {
      assert AvailableInTransaction(levels, lines[k].0, lines[k].1);
    }
    DistinctLinesReduce(levels, lines, 0, NoFault);
  }

  /** A repeated id can pass the per-line check and still exceed the stock: the
      second decrement matches no row, stock is rolled back, and the invoice stays. */
  lemma RepeatedLinesExample()
    ensures var p := Purchase(map[5 := 3], map[], Invoice("INV-20250101-120000-123", 7, Some(1)), [(5, 2), (5, 2)], NoFault);
      && p.outcome == Declined(StockReduction)
      && p.levels == map[5 := 3]
      && "INV-20250101-120000-123" in p.invoices
  {
    var levels := map[5 := 3];
    assert Decremented(levels, 5, 2) == map[5 := 1];
  }

  /** As written, an invoice that was inserted stays when the decrements fail or raise. */
  lemma InvoiceKeptAfterLateFailure(levels: map<int, int>, invoices: map<string, Invoice>, inv: Invoice, lines: seq<Line>, fault: Fault)
    requires CheckFrom(levels, lines, 0, fault) == AllAvailable && inv.id !in invoices
    requires ReduceFrom(levels, lines, 0, fault).status != AllReduced
    ensures Purchase(levels, invoices, inv, lines, fault).outcome != Committed
    ensures Purchase(levels, invoices, inv, lines, fault).invoices == invoices[inv.id := inv]
  {
  }

  /** The intended purchase is all-or-nothing on both stores. */
  lemma AtomicPurchaseAllOrNothing(levels: map<int, int>, invoices: map<string, Invoice>, inv: Invoice, lines: seq<Line>, fault: Fault)
    ensures var p := AtomicPurchase(levels, invoices, inv, lines, fault);
      && (p.outcome != Committed ==> p.levels == levels && p.invoices == invoices)
      && (p.outcome == Committed ==>
            p.invoices == invoices[inv.id := inv] && p.levels.Keys == levels.Keys &&
            forall id | id in levels :: p.levels[id] == levels[id] - Total(lines, id))
    ensures AtomicPurchase(levels, invoices, inv, lines, fault).outcome == Purchase(levels, invoices, inv, lines, fault).outcome
  {
    if Purchase(levels, invoices, inv, lines, fault).outcome == Committed {
      CommittedEffect(levels, invoices, inv, lines, fault);
    }
  }

  /** A committed purchase passes the consistency check. */
  lemma CommittedIsConsistent(levels: map<int, int>, invoices: map<string, Invoice>, inv: Invoice, lines: seq<Line>, fault: Fault)
    requires Purchase(levels, invoices, inv, lines, fault).outcome == Committed
    ensures Consistent(Purchase(levels, invoices, inv, lines, fault).levels, Purchase(levels, invoices, inv, lines, fault).invoices, inv.id, lines)
  {
    CommittedEffect(levels, invoices, inv, lines, fault);
    var p := Purchase(levels, invoices, inv, lines, fault);
    forall k | 0 <= k < |lines| ensures Level(p.levels, lines[k].0) >= 0 {
      assert Available(levels, lines[k].0, lines[k].1);
    }
  }

  // ---------------------------------------------------------------------------
  // The service, over the two tables

  /** validateStockAvailability: stops at the first line that is not available. */
  method ValidateStockAvailability(stock: StockTable, lines: seq<Line>, fault: Fault) returns (r: CheckResult)
    ensures r == CheckFrom(stock.levels, lines, 0, fault)
  {
    var i := 0;
    while i < |lines|
      invariant 0 <= i <= |lines|
      invariant CheckFrom(stock.levels, lines, 0, fault) == CheckFrom(stock.levels, lines, i, fault)
    {
      if fault == CheckThrows(i) {
        return CheckRaised;
      }
      var (id, required) := lines[i];
      if !AvailableInTransaction(stock.levels, id, required) {
        return Unavailable;
      }
      i := i + 1;
    }
    return AllAvailable;
  }

  /** reduceStockInTransaction: one conditional decrement per line, stopping at the
      first that affects no row. */
  method ReduceStockInTransaction(stock: StockTable, lines: seq<Line>, fault: Fault) returns (status: ReduceStatus)
    modifies stock
    ensures Reduction(status, stock.levels) == ReduceFrom(old(stock.levels), lines, 0, fault)
  {
    var i := 0;
    while i < |lines|
      invariant 0 <= i <= |lines|
      invariant ReduceFrom(old(stock.levels), lines, 0, fault) == ReduceFrom(stock.levels, lines, i, fault)
    {
      if fault == DecrementThrows(i) {
        return ReduceRaised;
      }
      var (id, quantity) := lines[i];
      var applied := stock.UpdateStock(id, quantity);
      if !applied {
        return ZeroRows;
      }
      i := i + 1;
    }
    return AllReduced;
  }

  /** executeCompletePurchaseTransaction: the stock levels are the transaction's state,
      restored on rollback; the invoice table is written outside it. */
  method ExecuteCompletePurchaseTransaction(stock: StockTable, invoices: InvoiceTable, inv: Invoice, lines: seq<Line>, fault: Fault)
      returns (outcome: PurchaseOutcome)
    modifies stock, invoices
    ensures PurchaseState(outcome, stock.levels, invoices.rows) == Purchase(old(stock.levels), old(invoices.rows), inv, lines, fault)
  {
    var snapshot := stock.levels;
    var checked := ValidateStockAvailability(stock, lines, fault);
    if checked == CheckRaised {
      stock.Restore(snapshot);
      return Raised;
    }
    if checked == Unavailable {
      stock.Restore(snapshot);
      return Declined(StockCheck);
    }
    var created := invoices.InsertFactura(inv);
    if !created {
      stock.Restore(snapshot);
      return Declined(InvoiceInsert);
    }
    var reduced := ReduceStockInTransaction(stock, lines, fault);
    if reduced == ReduceRaised {
      stock.Restore(snapshot);
      return Raised;
    }
    if reduced == ZeroRows {
      stock.Restore(snapshot);
      return Declined(StockReduction);
    }
    return Committed;
  }

  /** The purchase with the invoice inside the transaction: a rollback also removes it. */
  method ExecutePurchaseAtomic(stock: StockTable, invoices: InvoiceTable, inv: Invoice, lines: seq<Line>, fault: Fault)
      returns (outcome: PurchaseOutcome)
    modifies stock, invoices
    ensures PurchaseState(outcome, stock.levels, invoices.rows) == AtomicPurchase(old(stock.levels), old(invoices.rows), inv, lines, fault)
  {
    var invoiceSnapshot := invoices.rows;
    outcome := ExecuteCompletePurchaseTransaction(stock, invoices, inv, lines, fault);
    if outcome != Committed {
      invoices.Restore(invoiceSnapshot);
    }
  }

  /** validateTransactionConsistency. `failingQuery`, when present, is the query that
      raises: 0 for facturaExists, k + 1 for the level of line k. */
  method ValidateTransactionConsistency(stock: StockTable, invoices: InvoiceTable, invoiceId: string, lines: seq<Line>, failingQuery: Option<nat>)
      returns (ok: bool)
    ensures ok <==> Consistent(stock.levels, invoices.rows, invoiceId, lines) && (failingQuery.None? || failingQuery.value > |lines|)
  {
    if failingQuery == Some(0) {
      return false;
    }
    if !invoices.FacturaExists(invoiceId) {
      return false;
    }
    var i := 0;
    while i < |lines|
      invariant 0 <= i <= |lines|
      invariant forall k | 0 <= k < i :: Level(stock.levels, lines[k].0) >= 0
      invariant failingQuery.None? || failingQuery.value == 0 || failingQuery.value > i
    {
      if failingQuery == Some(i + 1) {
        return false;
      }
      var level := stock.GetStockLevel(lines[i].0);
      if level < 0 {
        return false;
      }
      i := i + 1;
    }
    return true;
  }
}
