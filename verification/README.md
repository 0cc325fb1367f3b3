# Procurement workflow model

This project models the procurement core of a small inventory system. Purchase
orders (POs) are raised against suppliers. Goods receiving vouchers (GRVs,
goods receipts) record what arrived. Closing a receipt turns its lines into
inventory batches and may mark the order as received.

The model covers:

- **Two status machines** (`statuses.dfy`). A purchase order moves through
  draft, submitted, received and cancelled. A goods receipt moves through
  draft and closed; `cancelled` is a valid field value, but no transition
  leads to it or away from it. One evaluator, `CheckTransition`, applies a
  transition table to an old and a new status. This is the check both `clean`
  methods run.
- **Document checks** (`validation.dfy`). Before a stored document is
  written, it goes through the transition check and the header freeze: once a
  document has left draft, no field but its status may change. A receipt also
  cannot close while one of its lines lacks an expiry date. A document with no
  key yet skips all of this. The same file holds the pre-fill of the
  receipt-creation form.
- **The line-item ledger** (`ledger.dfy`). It holds what a purchase-order line
  has received, summed over the receipt lines that reference it, restricted
  to a set of receipt statuses. From those sums come the two outstanding
  quantities and the "fully received" test of an order.
- **The persisted state and the workflow operations** (`procurement.dfy`).
  - A `Store` class holds the five tables (orders, order lines, receipts,
    receipt lines, batches) and their auto-increment counters.
  - Its methods are the request handlers: save a document; add, edit or
    delete lines; delete documents; create a receipt from an order and seed
    its lines; the closure cascade with its automatic reception of the order.
  - Every method keeps the referential invariant `Consistent`. It says that
    keys are unique and below their counters, every foreign key points at a
    stored row, and the batch-to-line link is one-to-one and used only by
    lines of closed receipts.
  - Each method's new state is given by a function on the old state. The
    lemmas are stated about those functions.
- **Facts about seeding and closure** (`facts.dfy`). After seeding, each order
  line's outstanding quantity is exactly covered. Closure makes exactly one
  batch per line. The order becomes received exactly when it is submitted and
  fully received.
- **Document numbers** (`numbering.dfy`). A number is `PO`, `GRV` or `LINE`
  followed by the key zero-padded to six digits. The number reads back as the
  key, so distinct keys never collide.
- **The supplier catalogue** (`suppliers.dfy`). The form check that keeps each
  (supplier, product) pair unique on create and on update. The database's
  unique constraint backs it up. On edit the product field is disabled.

How the data is represented:

- A table is a sequence of rows in ascending key order (`tables.dfy`).
- Quantities and prices are Decimal(10, 2) values, held exactly as integers
  in hundredths.
- Timestamps and dates are opaque integers.
- References to suppliers, warehouses, products and users are opaque keys.

## Model

| member | source | states |
|---|---|---|
| Statuses.PoTableTotal | purchasing/models.py:21-26 | the purchase-order table has an entry for every status, so its lookup never fails |
| Statuses.CheckTransition | purchasing/models.py:48-56 | a change is accepted iff the status is unchanged or the new status is listed under the old one; a refusal reports the allowed set, or a missing table entry |
| Statuses.PoAcceptsExactly | purchasing/models.py:21-26 | besides keeping its status, an order may go only draft→submitted, draft→cancelled, submitted→received or submitted→cancelled |
| Statuses.PoTerminal | purchasing/models.py:24-25 | received and cancelled accept no change, and refuse with an empty allowed set |
| Statuses.PoAcceptsMovesForward | purchasing/models.py:21-26 | every accepted change moves an order strictly forward, so no status is re-entered |
| Statuses.GrvOnlyDraftToClosed | purchasing/models.py:132-135 | the only receipt status change accepted is draft→closed |
| Statuses.GrvCancelledHasNoEntry | purchasing/models.py:158-166 | a receipt stored as cancelled cannot change status: the lookup finds no table entry |
| Statuses.PoTerminalStays | purchasing/models.py:48-56 | along any run of accepted saves, a received or cancelled order keeps that status |
| Statuses.GrvClosedStays | purchasing/models.py:158-166 | along any run of accepted saves, a closed receipt stays closed |
| Statuses.GrvClosesAtMostOnce | purchasing/models.py:184-196 | along any run of accepted saves, the receipt enters closed (firing the closure) at most once, and exactly once iff it starts unclosed and ends closed |
| Numbering.FormatIdShape | purchasing/models.py:35-37 | the formatted key is all digits, six long or as long as the key's own digits when those are longer |
| Numbering.SmallKeysTakeSixDigits | purchasing/models.py:35-37 | keys below one million format to exactly six characters |
| Numbering.FormatThenParse | purchasing/models.py:35-37 | a prefix followed by the formatted key parses back to that key |
| Numbering.NumbersDistinct | purchasing/models.py:233-235 | distinct keys get distinct PO, GRV and LINE numbers |
| Numbering.LargeKeysUnpadded | purchasing/models.py:35-37 | keys of one million and up have more than six digits and format to exactly their own digits, with no padding |
| Validation.CleanPurchaseOrder | purchasing/models.py:42-66 | a new order passes; a stored one passes iff the transition is accepted and, unless it was draft, only the status differs; a refused transition is reported as such |
| Validation.FrozenPurchaseOrder | purchasing/models.py:58-66 | once an order has left draft, any header change is refused |
| Validation.StatusOnlyChange | purchasing/models.py:48-66 | a status-only change to a listed status passes even after the header is frozen |
| Validation.ResavePurchaseOrder | purchasing/models.py:42-66 | re-saving a stored order unchanged always passes |
| Validation.CleanGoodsReceipt | purchasing/models.py:152-181 | a new receipt passes; a stored one passes iff the transition is accepted, the header is unchanged unless it was draft, and it is not closing with a line that lacks an expiry date; a closed pass means every line has one |
| Validation.FrozenGoodsReceipt | purchasing/models.py:168-176 | once a receipt has left draft, any header change, created_by included, is refused |
| Validation.ResaveGoodsReceipt | purchasing/models.py:152-181 | re-saving a receipt unchanged passes iff it is not a closed receipt with a line lacking an expiry date |
| Validation.CloseDraftReceipt | purchasing/models.py:178-181 | closing a draft receipt fails with the missing-expiry error exactly when one of its lines lacks an expiry date |
| Validation.InitialFor | purchasing/views.py:246-272 | the form is pre-filled with the order, its supplier and its warehouse iff the order exists and is submitted; otherwise everything stays blank |
| Ledger.FullyReceivedIff | purchasing/models.py:72-80 | an order is fully received iff every one of its lines has nothing outstanding for closure |
| Ledger.NoLinesFullyReceived | purchasing/models.py:72-80 | an order without lines is fully received |
| Ledger.NothingReceived | purchasing/models.py:101-110 | a line no receipt line references has received nothing, whatever the statuses |
| Ledger.NoReceiptsOutstandingIsQuantity | purchasing/models.py:112-116 | without receipt lines, both outstanding quantities equal the ordered quantity |
| Ledger.ReceivedSplit | purchasing/models.py:101-110 | the received sum over two disjoint status sets is the sum of the two sums |
| Ledger.DraftReceiptsGap | purchasing/models.py:112-116 | the two outstanding quantities differ by exactly what draft receipts hold |
| Ledger.CancelledNeverCounts | purchasing/models.py:101-110 | for a status set without cancelled, dropping every line of a cancelled receipt leaves the sum unchanged |
| Ledger.ClosingMovesDraftToClosed | purchasing/models.py:112-116 | closing a draft receipt leaves the quantity outstanding for a new receipt unchanged and lowers the quantity outstanding for closure by what that receipt holds |
| Procurement.Detach | purchasing/models.py:137 | a receipt that named the deleted order is left with no order and every other field as it was; a receipt naming another order, or none, is unchanged |
| Procurement.ConsistentDeletePo | purchasing/views.py:78-83 | deleting an order whose lines no receipt line references keeps the state consistent |
| Procurement.ConsistentDeleteGrv | purchasing/views.py:370-375 | deleting a draft receipt with its lines keeps the state consistent |
| Procurement.NoBatchUnlessClosed | warehouses/models.py:15-22 | a line of a receipt that is not closed has no batch |
| Procurement.UnbatchedUntilClosed | purchasing/models.py:195-196 | before the transition into closed, none of the receipt's lines has a batch |
| Procurement.ConsistentInsertBatch | warehouses/models.py:15-27 | adding the batch of a line of a closed receipt that has none keeps the one-to-one link and the state consistent |
| Procurement.BatchStep | purchasing/models.py:206-213 | one turn of the closure loop inserts the next line's batch and keeps the state consistent |
| Procurement.SeedsShape | purchasing/views.py:296-302 | every seeded receipt line belongs to the new receipt, has no expiry date and fulfils one of the order's lines |
| Procurement.SeedsHoldOutstanding | purchasing/views.py:292-302 | against a draft receipt, the seeded lines hold exactly the outstanding quantity of each order line, and only in status sets that count draft receipts |
| Procurement.SeedOutstandingUnchanged | purchasing/views.py:292-302 | inside the seeding loop, the next order line still shows the outstanding quantity it had before the loop began |
| Procurement.ConsistentWithSeeds | purchasing/views.py:296-302 | appending seeds of stored receipts and stored order lines keeps the state consistent |
| Procurement.SeedRun | purchasing/views.py:292-302 | the seeding loop inserts exactly the specified seeds under consecutive keys; it fails with the not-draft error iff the receipt is not draft and there is something to seed |
| Procurement.ConsistentSeeded | purchasing/views.py:292-302 | seeding a stored receipt from the lines of an order keeps every key, foreign key and batch link valid |
| Procurement.BatchRun | purchasing/models.py:206-213 | the batch loop ends in exactly the state with one batch per line of the receipt, in line order, under consecutive keys |
| Procurement.ConsistentWithBatches | purchasing/models.py:206-213 | making the batches of a closed receipt with no batches yet, whose lines all carry an expiry date, keeps the state consistent |
| Procurement.ConsistentReceive | purchasing/models.py:215-221 | setting the linked order to received, or leaving it, keeps the state consistent |
| Procurement.Store.SavePurchaseOrder | purchasing/models.py:68-70 | a new order is inserted under the next key; a stored one is overwritten iff its check passes and otherwise nothing changes; a missing one is not found |
| Procurement.Store.AddPoLine | purchasing/views.py:131-137 | a line is added under the next key iff its order exists and is draft; otherwise nothing changes |
| Procurement.Store.EditPoLine | purchasing/views.py:165-171 | the edit is written iff the line's current order and its target order are both draft; otherwise nothing changes |
| Procurement.Store.DeletePoLine | purchasing/views.py:198-204 | the line is removed iff its order is draft and no receipt line fulfils it; otherwise nothing changes |
| Procurement.Store.AddGrvLine | purchasing/views.py:423-429 | a manual receipt line, fulfilling no order line, is added iff its receipt exists and is draft |
| Procurement.Store.EditGrvLine | purchasing/views.py:457-463 | the edit is written iff the line's current receipt and its target receipt are both draft; the order line it fulfils is kept |
| Procurement.Store.DeleteGrvLine | purchasing/views.py:490-496 | the line is removed iff its receipt is draft and no batch was made from it |
| Procurement.Store.DeletePurchaseOrder | purchasing/views.py:78-83 | an order is deleted iff it is draft and none of its lines is received; its lines go with it and receipts that named it are detached; otherwise nothing changes |
| Procurement.Store.DeleteGoodsReceipt | purchasing/views.py:370-375 | a receipt is deleted, with its lines, iff it is draft; otherwise nothing changes |
| Procurement.Store.CreateBatches | purchasing/models.py:205-213 | the closure appends one batch per receipt line, in line order, under consecutive keys |
| Procurement.Store.HandleClosure | purchasing/models.py:198-221 | the batches are made, then the linked order is set to received if it is fully received; the result fails iff that status change is refused, and the writes stay |
| Procurement.Store.ReceiveIfComplete | purchasing/models.py:215-221 | the order becomes received iff it is fully received and its check accepts the change; if fully received but refused, the failure carries the refused transition |
| Procurement.Store.InsertGoodsReceipt | purchasing/models.py:184-196 | a new receipt is inserted unchecked; if it is saved as closed, the closure runs on its (empty) set of lines |
| Procurement.Store.UpdateGoodsReceipt | purchasing/models.py:184-196 | a failed check returns its error and writes nothing; a passing check writes the receipt and succeeds, unless the stored status was not closed and the new one is, in which case the closure runs on the written state, the result succeeds iff the closure is accepted, and a refused auto-close keeps the receipt and its batches written |
| Procurement.Store.SeedLines | purchasing/views.py:291-302 | seeding a draft receipt leaves exactly the seeded state; a non-draft receipt is left unchanged and the call fails iff there was something to seed |
| Procurement.Store.CreateGoodsReceiptFromPo | purchasing/views.py:274-307 | without an order, with a missing order, or with one that is not submitted, nothing is saved; otherwise the header is saved with its creator, and a draft receipt is then seeded |
| Procurement.Store.EditGoodsReceipt | purchasing/views.py:331-355 | a missing receipt or one not in draft is refused unchanged; for a draft receipt, saved with its stored created_by, a failed check returns its error and writes nothing, a passing one writes the receipt, and a closing edit also runs the closure and succeeds iff it is accepted |
| ProcurementFacts.SeedingFillsOutstanding | purchasing/views.py:292-302 | after seeding, an order line with something outstanding for a new receipt has nothing outstanding, and any other line keeps its amount |
| ProcurementFacts.SeedingKeepsClosureCount | purchasing/models.py:115-116 | seeding a draft receipt leaves every line's closed-receipt sum unchanged |
| ProcurementFacts.SeedingKeepsFullyReceived | purchasing/models.py:72-80 | seeding a draft receipt never changes whether any order is fully received |
| ProcurementFacts.SeedsPerLine | purchasing/views.py:292-302 | an order line with a positive outstanding quantity gets a seed with its product, unit price and that quantity and no expiry date; a seed for a line exists only then, and only in that form |
| ProcurementFacts.SeedsDistinctLines | purchasing/views.py:292-302 | no two seeded receipt lines fulfil the same order line |
| ProcurementFacts.ClosureBatchPerLine | purchasing/models.py:206-213 | each line of the closed receipt gets exactly one batch, which copies its product, quantity and expiry date into the receipt's warehouse |
| ProcurementFacts.ClosureBatchesFromLines | purchasing/models.py:206-213 | every new batch comes from a line of the closed receipt |
| ProcurementFacts.ClosureBatchCount | purchasing/models.py:206-213 | the closure adds as many batches as the receipt has lines and keeps the existing batches |
| ProcurementFacts.ReceiveOrderOutcome | purchasing/models.py:215-221 | only the linked order's status can change; it ends received iff it was received already, or it was submitted and is fully received |
| ProcurementFacts.ClosureRefusedWhen | purchasing/models.py:219-221 | the closure raises iff the linked order exists, is fully received and is draft or cancelled |
| Suppliers.Clean | suppliers/forms.py:41-70 | with no supplier id or no product there is no check; any failure is the already-provided error |
| Suppliers.InsertKeepsPairsUnique | suppliers/models.py:35 | inserting a row keeps pairs unique iff no stored row has its pair |
| Suppliers.PutKeepsPairsUnique | suppliers/models.py:35 | overwriting a row keeps pairs unique iff no other row has the new pair |
| Suppliers.CreateCleanIff | suppliers/forms.py:50-59 | with a supplier id, the create check passes iff inserting the row keeps pairs unique |
| Suppliers.UpdateCleanIff | suppliers/forms.py:61-68 | with a supplier id, the update check passes iff overwriting the row keeps pairs unique |
| Suppliers.OwnPairAccepted | suppliers/forms.py:61-68 | re-saving a row with its own pair never conflicts with itself |
| Suppliers.Catalog.Create | suppliers/forms.py:41-59 | a row is added iff a product is given and no row has the pair; the form's error is reported when there is a supplier id, the constraint's otherwise; pairs stay unique |
| Suppliers.Catalog.Update | suppliers/forms.py:33-39 | the product is kept because its field is disabled; the row is overwritten iff no other row has the pair; pairs stay unique |

## Left out

- Flash messages, redirects, templates, success URLs and list views are not modelled. Errors are result values (`Records.Error`, `Suppliers.SupplierError`), not exceptions or redirects.
- The Decimal(10, 2) `max_digits` validation is not modelled. Quantities and prices are unbounded integers in hundredths.
- Foreign keys to suppliers, warehouses, products and users are opaque keys. Those tables are not part of this model. Their existence checks, their PROTECT rules and the CASCADE from a warehouse to its batches are left out.
- The form field checks are left out: required fields and choice validation. The exception is a receipt naming an order that does not exist, which gives `NotFound` where the form's choice field would refuse it.
- A `po` query parameter that is not an integer is not modelled (`InitialFor` takes an optional key).
- Field disabling in the purchasing forms is left out. It mirrors the model's header freeze.
- Batches made by hand outside the closure are left out. The invariant still allows a batch without a receipt line.
- Deleting supplier-catalogue rows is left out, as are the fields the catalogue form does not show: `supplier_sku` is stored empty and `is_primary` false on create, and both are kept on update.
- The views for suppliers, products, warehouses and accounts are left out, as are the REST API, serializers and URL helpers.
- Transactions and concurrency are left out. The operations run one after another. A refused auto-close of an order happens after the receipt and its batches are written, and the model keeps those writes.
- Procurement.Store.CreateGoodsReceiptFromPo: when the header is saved in a status other than draft, the contract states only three things. The receipt header is stored, the receipt lines are unchanged, and the result is success or the not-draft error. It does not state the closure effects of a header saved as closed.
- Procurement.Store.SeedLines: the lines seeded by the loop are written to the store once, after the loop. The end state is the one a row-by-row insert would leave. On a non-draft receipt the first insert already fails, so no partial writes are lost.
- Procurement.Store.CreateBatches: the batches made by the loop are written to the store once, after the loop. The end state is the one a row-by-row insert would leave, and the loop cannot fail part-way.
- Procurement.Store.EditGoodsReceipt: the messages the view emits after a closing edit are not modelled.
- Procurement.SeedRun and Procurement.BatchRun: the order's lines and the receipt's lines are visited in ascending key order. The source's `po.lines.all()` and `self.lines.all()` run on models with no default ordering, so the database may return them in any order. The order decides which keys the seeded receipt lines and the batches receive. The sets of rows created, and the quantities they carry, do not depend on it.

Where the code and its description differ, the model follows the code:

- A purchase order or goods receipt can be created in any status. No check runs on a document without a key, and a receipt created as closed runs the closure at once.
- A receipt created from an order without an order fails (`NoPurchaseOrder`). It is not created standalone.
- The received-quantity sum does not itself exclude cancelled receipts. Only the status sets its two callers pass leave them out (`Ledger.CancelledNeverCounts`).
- A purchase-order line edited under another order's URL moves to that order. The view checks that the current order is draft, and the line's own check tests the target order.
