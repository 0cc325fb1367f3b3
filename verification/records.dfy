/**
 * The rows of the procurement tables. Foreign keys are primary keys (`nat`);
 * catalog references (supplier, warehouse, product, user) are opaque keys.
 * Quantities and prices are Decimal(10, 2) values held exactly as integers in
 * hundredths; timestamps and dates are opaque comparable integers.
 */
module Records {
  import opened Wrappers
  import opened Statuses

  type Hundredths = int
  type Timestamp = int
  type Date = int

  datatype PurchaseOrder = PurchaseOrder(
    supplier: nat,
    warehouse: nat,
    orderedAt: Timestamp,
    expectedAt: Timestamp,
    status: PoStatus,
    reference: string)

  datatype PurchaseOrderLine = PurchaseOrderLine(
    purchaseOrder: nat,
    product: nat,
    quantity: Hundredths,
    unitPrice: Hundredths)

  datatype GoodsReceipt = GoodsReceipt(
    purchaseOrder: Option<nat>,
    supplier: nat,
    warehouse: nat,
    receivedAt: Timestamp,
    status: GrvStatus,
    reference: string,
    createdBy: Option<nat>)

  datatype GoodsReceiptLine = GoodsReceiptLine(
    goodsReceipt: nat,
    purchaseOrderLine: Option<nat>,
    product: nat,
    quantity: Hundredths,
    expiryDate: Option<Date>,
    unitPrice: Hundredths)

  /** An inventory batch; the receipt-line link is optional and one-to-one, the expiry date mandatory. */
  datatype ProductBatch = ProductBatch(
    goodsReceiptLine: Option<nat>,
    product: nat,
    warehouse: nat,
    quantity: Hundredths,
    expiryDate: Date,
    lotNumber: string)

  /** Every way a workflow operation can fail. */
  datatype Error =
    | PoTransitionRefused(po: TransitionError<PoStatus>)
    | GrvTransitionRefused(grv: TransitionError<GrvStatus>)
    | ImmutableFieldChanged
    | MissingExpiryDates
    | ParentNotDraft
    | NotDraft
    | PoStatusNotSubmitted
    | NoPurchaseOrder
    | ReferencedEntityProtected
    | NotFound
    | AutoCloseRefused(refusal: TransitionError<PoStatus>)
}
