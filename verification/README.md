# Sale path of the computer-parts store, in Dafny

This project models the business logic behind a sale in the store application. A sale
offers parts (motherboards, CPUs, RAM modules and disks) singly or bundled as combos.

- **Combos.** A combo is a set of catalog parts with a percentage discount. Before a
  combo is stored, `ComboService` checks its discount and its detail lines, then runs the
  compatibility validator over the parts the lines name. `getCompatibleComponents`
  filters the candidates that fit a selected part.
- **Discounted price.** `Combo.calculateDiscountedPrice` applies the discount, first
  rounding the fraction half-up to two decimals.
- **Sale assembly.** The sale window (`VentaController`) expands a chosen combo into
  its parts and prices it. It counts identical parts into (id, quantity) lines, labels
  stock levels, checks a new client's data and checks whether one more unit can be added.
- **Purchase.** `TransactionService` first checks stock for every line, then writes the
  invoice, then decrements each line's stock (`ProductoDAO` holds the stock table). The
  invoice id comes from `InvoiceIdGenerator`: `INV-yyyyMMdd-HHmmss-RRR`, retried at most
  ten times against the ids already issued.

The JDBC tables become Dafny state:

- the stock column is a `map<int, int>` held by the class `StockLedger.StockTable`;
- the invoice table is a `map<string, Invoice>` held by `Invoices.InvoiceTable`;
- the combo table is a `map<int, ComboRow>` held by `ComboService.ComboTable`;
- a catalog lookup (`ComponenteDAO.getComponenteById`) is a `map<int, Part>` parameter.

`ComboDetalle` and `Combo` are classes, because the validator and `addDetalle` update
them in place. The part hierarchy (`Componente` and its four subclasses) is one
datatype with a constructor per subclass. BigDecimal amounts are `real`; Java `int`s are
unbounded `int`.

Each imperative operation is a method. Its `ensures` ties the result and the new state
to a specification function: `ScanAll`/`Validate`, `CheckFrom`/`ReduceFrom`/`Purchase`,
`FirstFresh`, `Expand`, `BasePrice` and so on. The properties the code promises are then
lemmas about those functions.

Modules, one file each:

| file | module | models |
|---|---|---|
| outcomes.dfy | `Outcomes` | Option, Result and a pass/fail outcome |
| parts.dfy | `Parts` | the part hierarchy, `String.contains` |
| combo.dfy | `ComboEntity` | `ComboDetalle`, `Combo`, discount arithmetic |
| compatibility.dfy | `ComboCompatibility` | `validateComboCompatibility`, `getCompatibleComponents` |
| combo_service.dfy | `ComboService` | `addCombo`, `updateCombo`, `deleteCombo`, `getComboById` |
| stock.dfy | `StockLedger` | `ProductoDAO` |
| invoices.dfy | `Invoices` | `FacturaDAO.insertFactura`/`facturaExists` as an invoice table |
| transactions.dfy | `Transactions` | `TransactionService` |
| invoiceids.dfy | `InvoiceIds` | `InvoiceIdGenerator` |
| saleassembly.dfy | `SaleAssembly` | quantities, combo expansion and combo pricing in `VentaController` |
| salechecks.dfy | `SaleChecks` | stock labels, client data, addition and selection checks in `VentaController` |

Exceptions are modelled as values:

- an `IllegalArgumentException` of the validator or the guards becomes `Fail(e)` of an
  `Outcome<ComboError>`;
- a `false` return of the purchase becomes `Declined(step)`;
- an `SQLException` raised inside the purchase becomes `Raised`. A `Fault` parameter
  says which query raises it.

## Model

| member | source | states |
|---|---|---|
| `Parts.ContainsIffOccurs` | src/model/service/ComboService.java:201 | `Contains(text, fragment)`, the model of `String.contains`, holds exactly when `fragment` occurs as a contiguous block at some index of `text` |
| `ComboEntity.ComboDetail.constructor` | src/model/entity/ComboDetalle.java:12-16 | a detail holds the given combo id, component id and quantity, with no attached component |
| `ComboEntity.ComboDetail.WithComponent` | src/model/entity/ComboDetalle.java:19-24 | the four-argument constructor also attaches the given component |
| `ComboEntity.Combo.constructor` | src/model/entity/Combo.java:14-17 | a new combo has the given discount and an empty detail list |
| `ComboEntity.ComponentIds` | src/model/service/ComboService.java:96-97 | the component ids the validator reads, one per detail, in order |
| `ComboEntity.Combo.AddDetail` | src/model/entity/Combo.java:66-71 | the detail list becomes the old list (empty when it was null) with exactly the new detail appended; no other field changes |
| `ComboEntity.Combo.CalculateDiscountedPrice` | src/model/entity/Combo.java:75-82 | a null price or a null discount returns the price unchanged; otherwise the result is `DiscountedPrice(price, discount)`, which lies in [0, price] for a price ≥ 0 and a discount in [0, 100] |
| `ComboEntity.RoundHalfUpNearest` | src/model/entity/Combo.java:80 | `RoundHalfUp(x)` is the nearest integer, with ties away from zero (HALF_UP), on both signs |
| `ComboEntity.RoundHalfUpMonotone` | src/model/entity/Combo.java:80 | half-up rounding is monotone |
| `ComboEntity.RoundHalfUpWhole` | src/model/entity/Combo.java:80 | a whole percentage is not changed by the rounding |
| `ComboEntity.DiscountedPriceWithinRange` | src/model/entity/Combo.java:79-81 | for a price ≥ 0 and a discount in [0, 100] (the range `addCombo` enforces) the discounted price lies in [0, price] |
| `ComboEntity.DiscountedPriceEnds` | src/model/entity/Combo.java:79-81 | a discount of 0 returns the price; a discount of 100 returns zero |
| `ComboEntity.DiscountUsesRoundedPercent` | src/model/entity/Combo.java:80-81 | the result is price × (100 − round-half-up(discount)) / 100, so only the rounded percentage matters |
| `ComboEntity.DiscountedPriceAntitone` | src/model/entity/Combo.java:79-81 | a larger discount never gives a larger price |
| `ComboEntity.DiscountExamples` | src/model/entity/Combo.java:79-81 | 10% of 500 gives 450; 12.5% rounds to 13% (87 of 100); 12.49% rounds to 12% (88 of 100) |
| `ComboEntity.RoundHalfUp` | src/model/entity/Combo.java:80 | the model of `divide(100, 2, ROUND_HALF_UP)` on the percentage; its meaning is `RoundHalfUpNearest` |
| `ComboEntity.DiscountedPrice` | src/model/entity/Combo.java:79-81 | the model of the discount formula; its properties are the lemmas above |
| `ComboCompatibility.ScanFrom` | src/model/service/ComboService.java:96-127 | a scan that stops reports how many details it attached, between the start and the number of lines |
| `ComboCompatibility.ScanAll` | src/model/service/ComboService.java:96-127 | the model of the resolve-and-track loop from the first line; its meaning is `ScanAllCorrect`, `UnresolvedLineRejected` and `RepeatedBoardOrCpuRejected` |
| `ComboCompatibility.CrossCheck` | src/model/service/ComboService.java:129-178 | the model of the checks after the loop; its meaning is `CrossCheckCorrect` and `MissingPartsInOrder` |
| `ComboCompatibility.Validate` | src/model/service/ComboService.java:88-179 | the model of the whole validator; its meaning is `ValidateAcceptsExactlyCompatible` |
| `ComboCompatibility.AttachedCount` | src/model/service/ComboService.java:96-103 | the number of details the scan attaches is at most the number of lines |
| `ComboCompatibility.Resolve` | src/model/service/ComboService.java:97 | when every id is in the catalog, the resolved parts are the catalog entries of the ids, in order |
| `ComboCompatibility.ScanKeepsWellKinded` | src/model/service/ComboService.java:106-121 | the trackers only ever hold a part of their own kind |
| `ComboCompatibility.AgreeingTrackersWellKinded` | src/model/service/ComboService.java:90-92 | trackers that agree with the parts seen hold parts of their own kind |
| `ComboCompatibility.AppendKind` | src/model/service/ComboService.java:106-121 | after adding a part, a kind is present iff it was present or is the part's kind, and it is still held by at most one part iff it was and the part does not repeat it |
| `ComboCompatibility.AppendHasKind` | src/model/service/ComboService.java:106-121 | a kind is present after adding a part iff it was present or is the part's kind |
| `ComboCompatibility.AppendAtMostOne` | src/model/service/ComboService.java:106-121 | a kind stays unique after adding a part iff it was unique and the part does not repeat it |
| `ComboCompatibility.ScanStep` | src/model/service/ComboService.java:96-127 | one accepted line keeps the scan invariant: the parts are the resolved ids and the trackers agree with them |
| `ComboCompatibility.AdvanceAgrees` | src/model/service/ComboService.java:106-121 | tracking a part that repeats no Motherboard or CPU keeps the trackers in agreement: the board tracker holds the only Motherboard, the CPU tracker the only CPU, and the RAM tracker is set iff a RAM was seen |
| `ComboCompatibility.ScanFromCorrect` | src/model/service/ComboService.java:96-127 | the scan finishes iff every id resolves and no Motherboard or CPU repeats; it then ends with the trackers of the whole list |
| `ComboCompatibility.ScanAllCorrect` | src/model/service/ComboService.java:96-127 | the same for the scan from the first line |
| `ComboCompatibility.FirstRamMismatchNone` | src/model/service/ComboService.java:155-164 | the RAM check finds no mismatch iff every RAM has the board's memory type |
| `ComboCompatibility.FirstUnsupportedDiskNone` | src/model/service/ComboService.java:168-178 | the disk check finds nothing iff the board's connection string contains every disk's connection |
| `ComboCompatibility.CrossCheckCorrect` | src/model/service/ComboService.java:129-178 | after a full scan the cross checks pass iff the parts hold a Motherboard, a CPU, a RAM and a disk, the sockets match, every RAM type matches and, when the board lists connections, every disk's connection is contained in them |
| `ComboCompatibility.ValidateAcceptsExactlyCompatible` | src/model/service/ComboService.java:88-179 | the validator passes iff every id resolves and the resolved parts form a complete, compatible set with one Motherboard and one CPU |
| `ComboCompatibility.MissingPartsInOrder` | src/model/service/ComboService.java:130-144 | after an accepted scan, MissingMotherboard, MissingCpu, MissingRam and MissingDisk fire exactly in that order: each iff the earlier kinds are present and its own kind is absent |
| `ComboCompatibility.HasDiskIsHasKind` | src/model/service/ComboService.java:141 | helper: a disk is present iff a part of the disk kind is present |
| `ComboCompatibility.ResolvePrefixStep` | src/model/service/ComboService.java:96-103 | resolving one more line appends that line's catalog part |
| `ComboCompatibility.ScanReaches` | src/model/service/ComboService.java:96-127 | when the first j lines resolve without a repeat, the scan reaches line j with the trackers of those lines |
| `ComboCompatibility.UnresolvedLineRejected` | src/model/service/ComboService.java:97-101 | the first unknown component id stops validation with ComponentNotFound(id), after attaching exactly the lines before it |
| `ComboCompatibility.RepeatedBoardOrCpuRejected` | src/model/service/ComboService.java:106-117 | a second Motherboard or CPU is rejected as soon as the scan reaches it, with that line already attached |
| `ComboCompatibility.RamLineKeepsScanning` | src/model/service/ComboService.java:118-121 | a RAM line never stops the scan, so several RAM lines are allowed |
| `ComboCompatibility.ScanDetails` | src/model/service/ComboService.java:96-127 | the loop halts with the error `ScanAll` gives, or ends with its trackers; each detail it reached holds its resolved part, the others keep their component, and no other detail field changes |
| `ComboCompatibility.TrackPart` | src/model/service/ComboService.java:104-126 | the type switch: a second Motherboard or CPU gives its error, otherwise the trackers advance as `Advance` says |
| `ComboCompatibility.FindRamMismatch` | src/model/service/ComboService.java:155-164 | the RAM loop returns the first attached RAM whose type differs from the board's |
| `ComboCompatibility.FindUnsupportedDisk` | src/model/service/ComboService.java:168-178 | the disk loop returns the first attached disk whose connection the board does not list |
| `ComboCompatibility.CheckAttached` | src/model/service/ComboService.java:129-178 | the checks after the scan return exactly `CrossCheck` of the trackers and the attached parts |
| `ComboCompatibility.ValidateComboCompatibility` | src/model/service/ComboService.java:88-179 | the verdict is `Validate` of the details' component ids; attached details hold their catalog part, the rest keep their component, and ids, combo ids and quantities do not change |
| `ComboCompatibility.PairVerdictAgreesWithFitsBoard` | src/model/service/ComboService.java:189-221 | the pairwise rule is symmetric around a Motherboard; it fails on a null connection string exactly for a disk; otherwise it agrees with the validator's socket, RAM-type and connection rule |
| `ComboCompatibility.UnrelatedPairIncompatible` | src/model/service/ComboService.java:189-221 | two parts neither of which is a Motherboard (or two Motherboards) are never compatible |
| `ComboCompatibility.PairVerdict` | src/model/service/ComboService.java:189-221 | the model of the pairwise rule; its meaning is `PairVerdictAgreesWithFitsBoard` and `UnrelatedPairIncompatible` |
| `ComboCompatibility.CompatibleWith` | src/model/service/ComboService.java:189-225 | the model of the filter loop; its meaning is `CompatibleWithKeepsExactlyCompatible` and `CompatibleWithFailsOnNullConnections` |
| `ComboCompatibility.OfType` | src/model/service/ComboService.java:182 | the candidates are exactly the catalog parts whose type tag is the target type: an in-order subsequence of the catalog holding each matching part as often as the catalog does |
| `ComboCompatibility.CompatibleWithKeepsExactlyCompatible` | src/model/service/ComboService.java:189-225 | the filter keeps a subsequence of the candidates, in their order, holding exactly the compatible ones |
| `ComboCompatibility.CompatibleWithFailsOnNullConnections` | src/model/service/ComboService.java:199-220 | the filter raises (a NullPointerException) iff some candidate pairs a disk with a board whose connection string is null |
| `ComboCompatibility.UnrelatedCandidatesYieldNothing` | src/model/service/ComboService.java:189-226 | unrelated kind pairs yield an empty list |
| `ComboCompatibility.PrependStep` | src/model/service/ComboService.java:189-225 | one candidate of the filter loop: kept when compatible, skipped when not, the whole call raises on a null connection string |
| `ComboCompatibility.FilterCandidate` | src/model/service/ComboService.java:190-224 | the body of the filter loop keeps the loop's result equal to the filter on the remaining candidates |
| `ComboCompatibility.GetCompatibleComponents` | src/model/service/ComboService.java:181-227 | a null selection returns all parts of the target type; otherwise the result is the compatible subsequence of them (or the null-connection failure) |
| `ComboService.DetailLines` | src/model/service/ComboService.java:36-38 | the (component id, quantity) pairs of the details stored with the combo, in order |
| `ComboService.ComboTable.constructor` | src/model/service/ComboService.java:22 | the combo table starts empty |
| `ComboService.ComboTable.Insert` | src/model/service/ComboService.java:38 | an inserted row gets a fresh positive id and nothing else in the table changes |
| `ComboService.ComboTable.Update` | src/model/dao/ComboDAO.java:123-158 | for a stored id the row is replaced; for an unknown id the detail INSERT breaks the Combo_Detalle foreign key, so the transaction is rolled back, the SQLException raised and the table left as it was |
| `ComboService.ComboTable.Delete` | src/model/service/ComboService.java:63 | a delete removes exactly that id |
| `ComboService.ComboTable.Get` | src/model/service/ComboService.java:70 | the lookup finds a row iff the id is stored, and returns that row |
| `ComboService.AddCombo` | src/model/service/ComboService.java:27-39 | a null or out-of-range discount fails with InvalidDiscount, then an empty or null detail list with NoDetails, both before validation or any change; otherwise the verdict is `Validate`, and only a pass inserts the row under a fresh id; the details keep their ids and quantities, and the validator attaches the catalog part to exactly the lines it reached |
| `ComboService.UpdateCombo` | src/model/service/ComboService.java:41-57 | an id ≤ 0 fails first, then the discount, then the empty list, with no table or detail change; otherwise the verdict is `Validate` of the new details, which attaches the catalog part to exactly the lines it reached; after a pass the stored row is replaced, or, for an id with no stored combo, the update raises and the table is unchanged; the details keep their ids and quantities on every path |
| `ComboService.DeleteCombo` | src/model/service/ComboService.java:59-64 | fails iff the id ≤ 0, then changes nothing; otherwise removes the row |
| `ComboService.GetComboById` | src/model/service/ComboService.java:66-71 | fails iff the id ≤ 0; otherwise returns the stored row, or none for an unknown id |
| `StockLedger.Decremented` | src/model/dao/ProductoDAO.java:24-34 | the conditional decrement lowers exactly one level by q when the row exists and holds at least q, so it never goes negative; otherwise nothing changes |
| `StockLedger.Level` | src/model/dao/ProductoDAO.java:45-60 | the model of a stock read: the stored level, or −1 for an unknown id, as `GetStockLevel` returns |
| `StockLedger.PickLeast` | src/model/dao/ProductoDAO.java:128 | the chosen id has the least sort key of the ids left (the step of ORDER BY) |
| `StockLedger.ListByWeight` | src/model/dao/ProductoDAO.java:101-145 | the listing holds every id of the set exactly once, in non-decreasing order of the sort key |
| `StockLedger.StockTable.constructor` | src/model/dao/ProductoDAO.java:13 | the table starts with the given levels |
| `StockLedger.StockTable.UpdateStock` | src/model/dao/ProductoDAO.java:23-36 | returns true iff the part exists with stock ≥ q, and the levels become `Decremented` |
| `StockLedger.StockTable.Restore` | src/model/service/TransactionService.java:49-80 | a rollback puts back the levels of the snapshot |
| `StockLedger.StockTable.GetStockLevel` | src/model/dao/ProductoDAO.java:45-60 | the stored level, or −1 for an unknown id |
| `StockLedger.StockTable.IsStockAvailable` | src/model/dao/ProductoDAO.java:70-73 | true iff the part exists, its level ≥ required and its level > 0 |
| `StockLedger.StockTable.IsOutOfStock` | src/model/dao/ProductoDAO.java:154-157 | true iff the part exists with level 0, so an unknown id is not out of stock |
| `StockLedger.StockTable.ValidateMultipleStock` | src/model/dao/ProductoDAO.java:83-93 | true iff every line is available; a false names a failing line |
| `StockLedger.StockTable.GetAllStockLevels` | src/model/dao/ProductoDAO.java:101-117 | every part with its level, each exactly once, in increasing id order |
| `StockLedger.StockTable.GetLowStockProducts` | src/model/dao/ProductoDAO.java:126-145 | exactly the parts with level ≤ threshold, each once with its level, in non-decreasing level order |
| `Invoices.Insert` | src/model/dao/FacturaDAO.java:13-25 | the insert succeeds iff the id is new; it adds that one row and keeps every other row; a repeated id fails with DuplicateId |
| `Invoices.InsertAsWritten` | src/model/dao/FacturaDAO.java:13-25 | the insert as written, with the null combo id unboxed; its meaning is `InsertAgreesWhenComboSold` and `ComboLessInvoiceRefusedAsWritten` |
| `Invoices.InsertAgreesWhenComboSold` | src/model/dao/FacturaDAO.java:23 | when the invoice names a combo, the insert as written and the corrected insert agree |
| `Invoices.ComboLessInvoiceRefusedAsWritten` | src/model/dao/FacturaDAO.java:23 | an invoice without a combo is refused by the insert as written, while the corrected insert stores it |
| `Invoices.ComboLessInvoiceExample` | src/model/dao/FacturaDAO.java:23 | a concrete combo-less invoice on which the two inserts differ |
| `Invoices.InvoiceTable.constructor` | src/model/service/FacturaService.java:11-13 | the table starts with the given rows |
| `Invoices.InvoiceTable.InsertFactura` | src/model/service/FacturaService.java:15-17 | returns true iff `Insert` succeeds, and the rows become its result; otherwise they stay as they were |
| `Invoices.InvoiceTable.Restore` | src/model/dao/FacturaDAO.java:17 | the table can be put back to a snapshot (used only by the corrected purchase) |
| `Invoices.InvoiceTable.FacturaExists` | src/model/dao/FacturaDAO.java:116-128 | true iff an invoice with that id is stored |
| `Transactions.AvailableInTransaction` | src/model/service/TransactionService.java:124-139 | the in-transaction check is `isStockAvailable` (false for a missing row), and a line that passes it also passes the decrement's guard |
| `Transactions.CheckFrom` | src/model/service/TransactionService.java:102-113 | the model of the availability loop from line i on; its meaning is `CheckFromPasses` |
| `Transactions.ReduceFrom` | src/model/service/TransactionService.java:169-189 | the model of the decrement loop from line i on; its meaning is `ReduceFromEffect` and `DistinctLinesReduce` |
| `Transactions.Purchase` | src/model/service/TransactionService.java:37-92 | the model of the purchase as written; its meaning is `CommittedEffect`, `StockUnchangedUnlessCommitted`, `FailedCheckChangesNothing` and `InvoiceKeptAfterLateFailure` |
| `Transactions.AtomicPurchase` | src/model/service/TransactionService.java:26-29 | the corrected, all-or-nothing purchase; its meaning is `AtomicPurchaseAllOrNothing` |
| `Transactions.CheckFromPasses` | src/model/service/TransactionService.java:102-113 | the check loop passes iff no line from i on raises and every such line is available; a raise comes from one of those lines |
| `Transactions.CheckPassesIffAllAvailable` | src/model/service/TransactionService.java:102-113 | the check passes iff no listed line raises and every line is available |
| `Transactions.TotalFromUnlisted` | src/model/service/TransactionService.java:173-186 | helper: an id that no remaining line names is asked for nothing |
| `Transactions.ReduceFromEffect` | src/model/service/TransactionService.java:169-189 | when every decrement applies, each part's level drops by the total its lines ask, every listed part existed, and no listed level is negative |
| `Transactions.DistinctLinesReduce` | src/model/service/TransactionService.java:169-189 | with distinct ids that each pass the guard and no raise, every decrement applies |
| `Transactions.StockUnchangedUnlessCommitted` | src/model/service/TransactionService.java:49-80 | any purchase that does not commit leaves every stock level as it was |
| `Transactions.FailedCheckChangesNothing` | src/model/service/TransactionService.java:49-52 | when some line is unavailable or the check raises, the purchase declines at the check or raises, and neither stock nor invoices change |
| `Transactions.CommittedEffect` | src/model/service/TransactionService.java:49-68 | a committed purchase checked every line, stored the new invoice, lowered each level by its lines' total, left unlisted parts alone, and left no listed level negative |
| `Transactions.DistinctAvailableLinesCommit` | src/model/service/TransactionService.java:37-68 | distinct available lines with a new invoice id and no raise always commit |
| `Transactions.RepeatedLinesExample` | src/model/service/TransactionService.java:55-64 | two lines of 2 units of a part with stock 3 both pass the check; the second decrement fails, the stock is rolled back to 3, but the invoice stays written |
| `Transactions.InvoiceKeptAfterLateFailure` | src/model/service/TransactionService.java:55-64 | a failure or a raise after the invoice is written leaves the purchase uncommitted with the invoice still stored |
| `Transactions.AtomicPurchaseAllOrNothing` | src/model/service/TransactionService.java:26-29 | the corrected purchase either commits both the invoice and every decrement or changes neither table, and it reports the same outcome as the purchase as written |
| `Transactions.CommittedIsConsistent` | src/model/service/TransactionService.java:217-241 | after a commit the consistency check holds: the invoice exists and no listed level is negative |
| `Transactions.ValidateStockAvailability` | src/model/service/TransactionService.java:102-113 | the check loop returns exactly `CheckFrom` from the first line |
| `Transactions.ReduceStockInTransaction` | src/model/service/TransactionService.java:169-189 | the decrement loop's status and the new levels are exactly `ReduceFrom` of the old levels |
| `Transactions.ExecuteCompletePurchaseTransaction` | src/model/service/TransactionService.java:37-92 | the outcome and both tables afterwards are exactly `Purchase` of the old tables: the stock is rolled back on every failure, the invoice table is not |
| `Transactions.ExecutePurchaseAtomic` | src/model/service/TransactionService.java:26-29 | the corrected method: outcome and tables are exactly `AtomicPurchase` of the old tables |
| `Transactions.ValidateTransactionConsistency` | src/model/service/TransactionService.java:217-241 | true iff the invoice exists, every listed part has a level ≥ 0 (an unknown part reads −1), and no query raised |
| `InvoiceIds.DigitChar` | src/util/InvoiceIdGenerator.java:45-49 | a digit value becomes the decimal digit character of that value |
| `InvoiceIds.Digits` | src/util/InvoiceIdGenerator.java:45-49 | the decimal text of a number is non-empty and all digits |
| `InvoiceIds.Zeros` | src/util/InvoiceIdGenerator.java:45-49 | the padding is n zero characters |
| `InvoiceIds.ZeroPad` | src/util/InvoiceIdGenerator.java:45-49 | `%0wd` is all ASCII digits (default locale with zero digit '0'), of width w unless the number needs more digits |
| `InvoiceIds.ValueOfDigits` | src/util/InvoiceIdGenerator.java:45-49 | the decimal text of n reads back as n |
| `InvoiceIds.DigitsFit` | src/util/InvoiceIdGenerator.java:45-49 | n has at most w digits iff n < 10^w |
| `InvoiceIds.PowAtLeastTen` | src/util/InvoiceIdGenerator.java:45-49 | helper: 10^w ≥ 10 for w ≥ 1 |
| `InvoiceIds.ValueIgnoresLeadingZeros` | src/util/InvoiceIdGenerator.java:45-49 | leading zeros do not change the value read back |
| `InvoiceIds.ValueOfZeros` | src/util/InvoiceIdGenerator.java:45-49 | a run of zeros reads back as 0 |
| `InvoiceIds.ZeroPadRoundTrip` | src/util/InvoiceIdGenerator.java:45-49 | zero-padding reads back as the number, and has exactly width w iff the number is below 10^w |
| `InvoiceIds.ZeroPadValue` | src/util/InvoiceIdGenerator.java:45-49 | zero-padding reads back as the number |
| `InvoiceIds.YearText` | src/util/InvoiceIdGenerator.java:44 | the `yyyy` text is four digits iff the year of era is below 10000 (a larger year gets a sign) |
| `InvoiceIds.ValidFormatIffFields` | src/util/InvoiceIdGenerator.java:58-66 | the format check is false for null or blank input and otherwise true iff the text is `INV-`, 8 digits, `-`, 6 digits, `-`, 3 digits and nothing else |
| `InvoiceIds.ConcatDigits` | src/util/InvoiceIdGenerator.java:44-46 | helper: two digit strings joined are digits |
| `InvoiceIds.AssembleSlices` | src/util/InvoiceIdGenerator.java:49 | the assembled id is 23 characters with the prefix, the date, the time and the suffix at fixed offsets |
| `InvoiceIds.AssembleValid` | src/util/InvoiceIdGenerator.java:42-66 | an assembled id has the valid format iff its date, time and suffix parts are digits of lengths 8, 6 and 3 |
| `InvoiceIds.DigitsBetweenDashes` | src/util/InvoiceIdGenerator.java:64 | in a well-shaped id every position from 4 to 22 except the two dashes is a digit |
| `InvoiceIds.DatePartShape` | src/util/InvoiceIdGenerator.java:44 | the date part is 8 digits iff the year of era is below 10000 |
| `InvoiceIds.TimePartShape` | src/util/InvoiceIdGenerator.java:45-46 | the time part is always 6 digits |
| `InvoiceIds.GenerateInvoiceId` | src/util/InvoiceIdGenerator.java:42-50 | the model of `generateInvoiceId` for one clock reading and one suffix drawn from [100, 999]; its meaning is `GeneratedIdValid` and `GeneratedIdRoundTrip` |
| `InvoiceIds.IsValidInvoiceIdFormat` | src/util/InvoiceIdGenerator.java:58-66 | the model of `isValidInvoiceIdFormat`; its meaning is `ValidFormatIffFields` |
| `InvoiceIds.GeneratedIdValid` | src/util/InvoiceIdGenerator.java:42-66 | with a suffix drawn by `nextInt(100, 1000)`, a generated id passes the format check iff the year of era is below 10000 (default locale with ASCII digits) |
| `InvoiceIds.GeneratedIdRoundTrip` | src/util/InvoiceIdGenerator.java:42-50 | the fields of a generated id read back as the year, month, day, hour, minute, second and suffix that made it |
| `InvoiceIds.AssembledFields` | src/util/InvoiceIdGenerator.java:49 | each numeric field of an assembled id reads back as the matching slice of its parts |
| `InvoiceIds.DateFieldsRoundTrip` | src/util/InvoiceIdGenerator.java:44 | the date part reads back as year, month and day |
| `InvoiceIds.TimeFieldsRoundTrip` | src/util/InvoiceIdGenerator.java:45-46 | the time part reads back as hour, minute and second |
| `InvoiceIds.ValidateInvoiceIdUniqueness` | src/util/InvoiceIdGenerator.java:112-116 | fails iff the id already exists, naming that id |
| `InvoiceIds.Attempts` | src/util/InvoiceIdGenerator.java:18-29 | exactly MAX_RETRY_ATTEMPTS = 10 candidates are drawn |
| `InvoiceIds.FirstFresh` | src/util/InvoiceIdGenerator.java:28-32 | a found attempt index lies within the attempts |
| `InvoiceIds.FirstFreshCorrect` | src/util/InvoiceIdGenerator.java:28-34 | no attempt is fresh iff every candidate exists; otherwise the index found is fresh and every earlier candidate exists |
| `InvoiceIds.GenerateUniqueInvoiceId` | src/util/InvoiceIdGenerator.java:27-35 | the retry loop returns the first of the ten candidates not already issued, or fails when all ten collide |
| `InvoiceIds.AttemptGenerates` | src/util/InvoiceIdGenerator.java:29 | attempt k is the id generated from the k-th clock reading and suffix |
| `InvoiceIds.UniqueIdWellFormed` | src/util/InvoiceIdGenerator.java:42-66 | every candidate drawn with a suffix in [100, 999] before year 10000 passes the format check (default locale with ASCII digits) |
| `SaleAssembly.FirstAppearancesCorrect` | src/controller/VentaController.java:749-768 | the distinct ids in first-appearance order hold each id of the input exactly once |
| `SaleAssembly.SumCountsSnoc` | src/controller/VentaController.java:749-768 | appending one id raises the summed counts by one exactly when the id is listed |
| `SaleAssembly.CountAbsent` | src/controller/VentaController.java:749-768 | an id has count 0 iff it does not occur |
| `SaleAssembly.CountsSumToLength` | src/controller/VentaController.java:749-768 | the counts of the distinct ids add up to the input length |
| `SaleAssembly.CountAppend` | src/controller/VentaController.java:749-768 | counts add over concatenation |
| `SaleAssembly.SumQuantitiesIsSumCounts` | src/controller/VentaController.java:751-767 | lines carrying the counts sum to the summed counts |
| `SaleAssembly.FirstAppearancesStep` | src/controller/VentaController.java:758-768 | one more input id is added to the distinct list iff it has not appeared before |
| `SaleAssembly.CalculateProductQuantities` | src/controller/VentaController.java:746-772 | the lines list the distinct ids in first-appearance order, each with its number of occurrences |
| `SaleAssembly.ProductQuantitiesSummary` | src/controller/VentaController.java:746-772 | such lines have no repeated id, name exactly the ids of the sale, carry quantities ≥ 1, and sum to the sale's length |
| `SaleAssembly.Repeat` | src/controller/VentaController.java:705-707 | the inner loop adds the component exactly n times |
| `SaleAssembly.CountRepeat` | src/controller/VentaController.java:705-707 | n copies of a part count n for its id and 0 for every other id |
| `SaleAssembly.Expand` | src/controller/VentaController.java:698-708 | the model of the expansion loop; its meaning is `ExpandCorrect` |
| `SaleAssembly.ExpandCorrect` | src/controller/VentaController.java:698-708 | the expansion aborts iff some detail has a null component; otherwise it holds the total quantity of parts and each id as often as its details' quantities say |
| `SaleAssembly.ExpandStep` | src/controller/VentaController.java:698-708 | one detail with a component appends its repeated part and continues |
| `SaleAssembly.ExpandHitsMissing` | src/controller/VentaController.java:699-704 | a detail with a null component aborts the rest of the expansion |
| `SaleAssembly.ExpandCombo` | src/controller/VentaController.java:680-708 | an empty or null detail list aborts; otherwise the sale parts are exactly the expansion, or an abort on a null component |
| `SaleAssembly.ComboSaleQuantities` | src/controller/VentaController.java:698-708 | the quantity lines of an expanded combo carry, per id, the total quantity of that id's details |
| `SaleAssembly.PriceSumAppend` | src/controller/VentaController.java:518-525 | the price of concatenated parts is the sum of the prices |
| `SaleAssembly.PriceSumRepeat` | src/controller/VentaController.java:140-143 | n copies of a priced part cost price × n, the cost of its detail |
| `SaleAssembly.BasePriceIsPriceOfExpansion` | src/controller/VentaController.java:134-146 | when every detail is priced, the combo's base price equals the summed prices of its expanded parts |
| `SaleAssembly.BasePriceNonNegative` | src/controller/VentaController.java:134-146 | with quantities ≥ 0 and prices ≥ 0 the base price is ≥ 0 |
| `SaleAssembly.BasePriceStep` | src/controller/VentaController.java:140-145 | the base price is the first detail's cost plus the base price of the rest |
| `SaleAssembly.BasePrice` | src/controller/VentaController.java:134-146 | the model of the base-price sum; its meaning is `BasePriceIsPriceOfExpansion` and `BasePriceNonNegative` |
| `SaleAssembly.SumComboPrice` | src/controller/VentaController.java:131-146 | the price loop returns Σ price × quantity over details with a component and a price, and reports whether there was at least one |
| `SaleAssembly.ComboListing` | src/controller/VentaController.java:131-159 | a combo is listed iff some detail is priced and its discounted price is ≥ 0, at that price; with sane data it is listed at a price between 0 and the base price |
| `SaleChecks.Band` | src/controller/VentaController.java:244-255 | below 0 is ERROR STOCK, 0 is SIN STOCK, 1 to 5 is Stock BAJO with the level, above 5 is Stock with the level |
| `SaleChecks.FallbackBand` | src/controller/VentaController.java:477-485 | the fallback label has no BAJO band: below 0 ERROR STOCK, 0 SIN STOCK, otherwise Stock with the level |
| `SaleChecks.StockLabel` | src/controller/VentaController.java:244-255 | the label text of a band; its meaning is `BandTextInjective` and `StockLabelDeterminesStock` |
| `SaleChecks.FallbackStockLabel` | src/controller/VentaController.java:477-485 | the fallback label text; its meaning is `FallbackLabelDiffersOnlyWhenLow` |
| `SaleChecks.BandTextInjective` | src/controller/VentaController.java:244-255 | distinct bands print distinct labels |
| `SaleChecks.DigitsInjective` | src/controller/VentaController.java:252-254 | the printed level determines the level |
| `SaleChecks.StockLabelDeterminesStock` | src/controller/VentaController.java:244-255 | two non-negative levels with the same label are equal |
| `SaleChecks.FallbackLabelDiffersOnlyWhenLow` | src/controller/VentaController.java:477-485 | the two labels agree iff the level is not in 1..5 |
| `SaleChecks.Trim` | src/controller/VentaController.java:982-985 | `String.trim` result is no longer than its input and neither starts nor ends with a character ≤ space |
| `SaleChecks.TrimStart` | src/controller/VentaController.java:982-985 | the leading characters ≤ space are removed and nothing else |
| `SaleChecks.TrimEnd` | src/controller/VentaController.java:982-985 | the trailing characters ≤ space are removed and nothing else |
| `SaleChecks.TrimEndKeepsFirst` | src/controller/VentaController.java:982-985 | trimming the end keeps a non-blank first character |
| `SaleChecks.TrimEmptyIffBlank` | src/controller/VentaController.java:982-985 | a text trims to empty iff all its characters are ≤ space |
| `SaleChecks.Utf16Length` | src/controller/VentaController.java:991 | `String.length()` counts UTF-16 code units: between the number of characters and twice it, and equal to it iff no character lies outside the Basic Multilingual Plane |
| `SaleChecks.ClientDataErrors` | src/controller/VentaController.java:974-1024 | at most four messages, at most one per field, in the order name, surname, email, phone |
| `SaleChecks.FieldErrors` | src/controller/VentaController.java:989-1014 | at most one message per field, in the order the fields are checked |
| `SaleChecks.FieldErrorsIndependent` | src/controller/VentaController.java:989-1014 | the name, surname and phone messages each depend only on their own field |
| `SaleChecks.ValidateClientData` | src/controller/VentaController.java:974-1024 | true iff there are exactly four fields, the trimmed name and surname are non-empty and at most 50 UTF-16 units long, a non-empty email contains '@' and '.' and is at most 100 units, and a non-empty phone is at most 20 units |
| `SaleChecks.FieldErrorsEmpty` | src/controller/VentaController.java:989-1016 | no message is produced iff every field rule holds |
| `SaleChecks.NameField` | src/controller/VentaController.java:982-1000 | the name and surname rule, stated on the raw field |
| `SaleChecks.EmailField` | src/controller/VentaController.java:1003-1007 | the email rule, stated on the raw field |
| `SaleChecks.PhoneField` | src/controller/VentaController.java:1010-1014 | the phone rule, stated on the raw field |
| `SaleChecks.FieldsEmptyIffAbsent` | src/controller/VentaController.java:982-985 | a field trims to empty iff it is null or blank |
| `SaleChecks.ClientErrorsIndependent` | src/controller/VentaController.java:982-1014 | the required-name, required-surname and phone-length messages each appear iff their own field breaks its rule |
| `SaleChecks.InConcat` | src/controller/VentaController.java:987-1016 | helper: a message is in the joined messages iff it is in one of the parts |
| `SaleChecks.ValidateComponentForAddition` | src/controller/VentaController.java:376-426 | one more unit may be added iff the number of identical entries already selected is below the stock level (so the level is > 0 and ≥ count + 1) |
| `SaleChecks.AdditionStaysWithinStock` | src/controller/VentaController.java:398-415 | after an accepted addition the identical entries do not exceed the stock level |
| `SaleChecks.ValidateProductSelection` | src/controller/VentaController.java:632-643 | the model of `validateProductSelection`: refuses exactly a sale with no combo (index ≤ 0, index 0 being "Ninguno") and no selected entry; what that means for the sale is `AcceptedSelectionSellsSomething` |
| `SaleChecks.AcceptedSelectionSellsSomething` | src/controller/VentaController.java:632-707 | when the chosen combo's details expand to its parts and each asks for at least one unit, the selection check passes iff the sale that is then built (the expanded combo followed by one part per selected entry) is not empty |

## Left out

- Java `int` arithmetic is unbounded here. A stock level, a quantity or a combo id never
  wraps at 32 bits, and `quantity × price` uses the exact BigDecimal value.
- The database itself is not modelled:
  - no foreign keys, so no client existence check and no check that a combo id exists;
  - no `FOR UPDATE` row locking, no concurrent sales and no connection failures;
  - `ComboDAO`, `ComponenteDAO` and `FacturaDAO` are not part of this model beyond the
    map each one stands for.
- An `SQLException` in `invoiceIdExists` and in `getStockLevel`, and any exception in
  `validateComponentForAddition`, are left out. Inside the purchase, an `SQLException` is
  modelled only through the `Fault` parameter. In `validateTransactionConsistency` it is
  modelled only through the `failingQuery` parameter.
- `ComboService.UpdateCombo` and `ComboService.ComboTable.Update` assume the foreign key
  from Combo_Detalle to Combo that the ON DELETE CASCADE comment of `deleteCombo` relies
  on. With it, an unknown combo id makes the detail INSERT raise, and the rollback leaves
  both tables as they were. Without that key, Java would store detail lines under an id
  with no combo row. The model keeps no such orphan lines.
- `actualizarCombo` and `crearCombo` are thin wrappers over the modelled calls and have
  no member of their own.
- `ComboCompatibility.ValidateComboCompatibility`: a part's socket, RAM type, memory type
  and disk connection are never null here; only the board's disk-connection list may be.
  In Java, a null board socket, board RAM type or disk connection throws a
  NullPointerException (ComboService.java:147, :158 and :172), and a null CPU socket
  fails as a socket mismatch. The model has none of these paths.
- `ComboCompatibility.GetCompatibleComponents`: for the same reason, the NullPointerException
  that a null socket, RAM type or disk connection raises in the pairwise rule
  (ComboService.java:195-219) is not modelled.
- `ComboCompatibility.CompatibleWithFailsOnNullConnections` covers only the null
  connection list of a board. The other null strings are not modelled.
- `ORDER BY` is modelled by repeated least-element selection. Among equal stock levels,
  `StockLedger.StockTable.GetLowStockProducts` fixes no order, because SQL fixes none.
- The `instanceof` tests and the type-tag switch are modelled as a match on the part's
  kind; the tag string itself is `Parts.KindTag`.
- The float totals of `collectPurchaseData` and `precioTotal` on the invoice are left
  out: floating point.
- `findComponenteByDisplayText` and the Swing dialogs, combo boxes and list models are
  UI. Of `actualizarTotal`, only the combo price sum is modelled. The two-decimal
  `setScale` of displayed prices and the combo-name fallback are display formatting.
- `InvoiceIds.GenerateInvoiceId` assumes that the default FORMAT locale has the ASCII
  zero digit '0'. `String.format` localises the digits of `%02d` and `%03d`
  (InvoiceIdGenerator.java:45-46 and :49), so a locale with other digits, such as Thai or
  Arabic-Indic, gives non-ASCII time and suffix digits. The date part keeps ASCII digits,
  because `DateTimeFormatter` uses the standard decimal style. The ASCII-only `\d` of the
  pattern at :64 would then reject the id. `InvoiceIds.ZeroPad`,
  `InvoiceIds.GeneratedIdValid` and `InvoiceIds.UniqueIdWellFormed` hold only under this
  locale assumption.
- The clock (`LocalDateTime.now`) and the random source (`ThreadLocalRandom`) are
  parameters: a sequence of clock readings and suffixes.
- `SaleAssembly.SumComboPrice` skips no null detail: a detail is an object here, so the
  null-detail `continue` of the price loop has no counterpart.
- `Transactions.Purchase` uses the corrected invoice insert, so the purchase model does
  not also carry the null-combo failure of the first finding.
- `Invoices.InvoiceTable.InsertFactura` uses the corrected insert: it stores a combo-less
  invoice, where FacturaDAO.java:23 throws.
- `Transactions.ExecuteCompletePurchaseTransaction` goes through that corrected insert,
  so a combo-less sale is not declined at the invoice step as it is in Java.
- The legacy `ComponentStore/` tree holds no behaviour.

## Findings

| source | as written | input that shows it | evidently intended | confidence | as-written member | corrected member |
|---|---|---|---|---|---|---|
| src/model/dao/FacturaDAO.java:23 | `setInt(4, combo != null ? combo.getComboID() : null)` unboxes `null` into an `int`, so an invoice without a combo throws a NullPointerException; `createInvoiceInTransaction` catches it and every sale without a combo returns false | an invoice `INV-20250101-120000-123` for client 7 with no combo (`Invoices.ComboLessInvoiceExample`) | store the invoice with a NULL combo id (`setNull`) | not executed | `Invoices.InsertAsWritten`, `Invoices.ComboLessInvoiceRefusedAsWritten` | `Invoices.Insert` |
| src/model/service/TransactionService.java:55-64 with src/model/dao/FacturaDAO.java:17 | the invoice is written on FacturaDAO's own autocommit connection, so the rollback after a failed or raising decrement undoes the stock changes but leaves the invoice stored | stock `{5: 3}`, lines `[(5, 2), (5, 2)]`: both lines pass the check, the second decrement updates no row, the purchase returns false and the invoice stays (`Transactions.RepeatedLinesExample`). The sale window itself sends distinct ids (`SaleAssembly.ProductQuantitiesSummary`), so there the trigger is a decrement that raises an SQLException: `Transactions.InvoiceKeptAfterLateFailure` with `DecrementThrows(k)` | the class comment's atomic purchase: any failure undoes the invoice as well | not executed | `Transactions.Purchase`, `Transactions.RepeatedLinesExample`, `Transactions.InvoiceKeptAfterLateFailure` | `Transactions.AtomicPurchase`, `Transactions.AtomicPurchaseAllOrNothing` |
