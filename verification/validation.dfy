/**
 * The checks `full_clean` runs before a document row is written, and the
 * header pre-fill of the receipt-creation form. All pure: each takes the
 * persisted row (None for a document that has no primary key yet) and the
 * row about to be written.
 */
module Validation {
  import opened Wrappers
  import opened Statuses
  import opened Records
  import opened Tables

  /** True when nothing but the status differs: the header fields are the frozen part. */
  predicate SameHeader(stored: PurchaseOrder, po: PurchaseOrder) {
    po.(status := stored.status) == stored
  }

  predicate SameReceiptHeader(stored: GoodsReceipt, grv: GoodsReceipt) {
    grv.(status := stored.status) == stored
  }

  /** `PurchaseOrder.clean`. */
  function CleanPurchaseOrder(persisted: Option<PurchaseOrder>, po: PurchaseOrder): (r: Result<(), Error>)
    ensures persisted.None? ==> r.Success?
    ensures persisted.Some? ==>
      (r.Success? <==> PoAccepts(persisted.value.status, po.status)
                       && (persisted.value.status == PoStatus.Draft || SameHeader(persisted.value, po)))
    ensures persisted.Some? && !PoAccepts(persisted.value.status, po.status) ==>
      r == Failure(PoTransitionRefused(InvalidTransition(persisted.value.status, po.status, PoAllowed(persisted.value.status))))
  {
    match persisted
    case None => Success(())
    case Some(stored) =>
      PoTableTotal(stored.status);
      var transition := CheckTransition(PoTransitions, stored.status, po.status);
      if transition.Failure? then Failure(PoTransitionRefused(transition.error))
      else if stored.status != PoStatus.Draft && !SameHeader(stored, po) then Failure(ImmutableFieldChanged)
      else Success(())
  }

  /** Some stored line of receipt `id` has no expiry date (`lines.filter(expiry_date__isnull=True).exists()`). */
  predicate LacksExpiry(lines: Table<GoodsReceiptLine>, id: nat) {
    exists i | 0 <= i < |lines| :: lines[i].row.goodsReceipt == id && lines[i].row.expiryDate.None?
  }

  /** `GoodsReceipt.clean`; `lines` is the stored line table, `id` the receipt's key. */
  function CleanGoodsReceipt(persisted: Option<GoodsReceipt>, grv: GoodsReceipt, lines: Table<GoodsReceiptLine>, id: nat): (r: Result<(), Error>)
    ensures persisted.None? ==> r.Success?
    ensures persisted.Some? ==>
      (r.Success? <==> GrvAccepts(persisted.value.status, grv.status)
                       && (persisted.value.status == GrvStatus.Draft || SameReceiptHeader(persisted.value, grv))
                       && !(grv.status == GrvStatus.Closed && LacksExpiry(lines, id)))
    ensures persisted.Some? && r.Success? && grv.status == GrvStatus.Closed ==>
      forall i :: 0 <= i < |lines| && lines[i].row.goodsReceipt == id ==> lines[i].row.expiryDate.Some?
  {
    match persisted
    case None => Success(())
    case Some(stored) =>
      var transition := CheckTransition(GrvTransitions, stored.status, grv.status);
      if transition.Failure? then Failure(GrvTransitionRefused(transition.error))
      else if stored.status != GrvStatus.Draft && !SameReceiptHeader(stored, grv) then Failure(ImmutableFieldChanged)
      else if grv.status == GrvStatus.Closed && LacksExpiry(lines, id) then Failure(MissingExpiryDates)
      else Success(())
  }

  /** Once a purchase order has left draft, editing any header field is refused, whatever the status. */
  lemma FrozenPurchaseOrder(stored: PurchaseOrder, po: PurchaseOrder)
    requires stored.status != PoStatus.Draft && !SameHeader(stored, po)
    ensures CleanPurchaseOrder(Some(stored), po).Failure?
  {
  }

  /** A status-only change to a listed target still passes after the header is frozen. */
  lemma StatusOnlyChange(stored: PurchaseOrder, to: PoStatus)
    requires PoAccepts(stored.status, to)
    ensures CleanPurchaseOrder(Some(stored), stored.(status := to)) == Success(())
  {
  }

  /** Saving a purchase order unchanged always passes. */
  lemma ResavePurchaseOrder(po: PurchaseOrder)
    ensures CleanPurchaseOrder(Some(po), po) == Success(())
  {
  }

  /** Once a receipt has left draft, editing any header field is refused. */
  lemma FrozenGoodsReceipt(stored: GoodsReceipt, grv: GoodsReceipt, lines: Table<GoodsReceiptLine>, id: nat)
    requires stored.status != GrvStatus.Draft && !SameReceiptHeader(stored, grv)
    ensures CleanGoodsReceipt(Some(stored), grv, lines, id).Failure?
  {
  }

  /** Saving a receipt unchanged passes unless it is closed and a line lacks an expiry date. */
  lemma ResaveGoodsReceipt(grv: GoodsReceipt, lines: Table<GoodsReceiptLine>, id: nat)
    ensures CleanGoodsReceipt(Some(grv), grv, lines, id).Success? <==>
      !(grv.status == GrvStatus.Closed && LacksExpiry(lines, id))
  {
  }

  /** Closing a draft receipt fails exactly when one of its lines lacks an expiry date. */
  lemma CloseDraftReceipt(stored: GoodsReceipt, lines: Table<GoodsReceiptLine>, id: nat)
    requires stored.status == GrvStatus.Draft
    ensures var r := CleanGoodsReceipt(Some(stored), stored.(status := GrvStatus.Closed), lines, id);
      (LacksExpiry(lines, id) ==> r == Failure(MissingExpiryDates))
      && (!LacksExpiry(lines, id) ==> r == Success(()))
  {
  }

  /** The pre-filled values of the receipt-creation form. */
  datatype Initial = Initial(purchaseOrder: Option<nat>, supplier: Option<nat>, warehouse: Option<nat>)

  /** `GoodsReceiptCreateView.get_initial` for the `po` query parameter. */
  function InitialFor(pos: Table<PurchaseOrder>, poParam: Option<nat>): (r: Initial)
    ensures r.purchaseOrder.Some? <==>
      poParam.Some? && Get(pos, poParam.value).Some? && Get(pos, poParam.value).value.status == PoStatus.Submitted
    ensures r.purchaseOrder.Some? ==>
      var po := Get(pos, poParam.value).value;
      r == Initial(poParam, Some(po.supplier), Some(po.warehouse))
    ensures r.purchaseOrder.None? ==> r == Initial(None, None, None)
  {
    match poParam
    case None => Initial(None, None, None)
    case Some(id) =>
      match Get(pos, id)
      case None => Initial(None, None, None)
      case Some(po) =>
        if po.status != PoStatus.Submitted then Initial(None, None, None)
        else Initial(Some(id), Some(po.supplier), Some(po.warehouse))
  }
}
