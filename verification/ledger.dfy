/**
 * The line-item ledger: what a purchase-order line has received, summed over
 * the receipt lines that reference it, and the two outstanding quantities and
 * the "fully received" test derived from those sums.
 */
module Ledger {
  import opened Wrappers
  import opened Statuses
  import opened Records
  import opened Tables

  /** The status of receipt `id`, or None when no such receipt is stored. */
  function StatusOf(grvs: Table<GoodsReceipt>, id: nat): Option<GrvStatus> {
    match Get(grvs, id)
    case None => None
    case Some(g) => Some(g.status)
  }

  /** Receipt line `e` fulfils purchase-order line `poLine` and its receipt's status is in `statuses`. */
  predicate Counts(grvs: Table<GoodsReceipt>, e: Entry<GoodsReceiptLine>, poLine: nat, statuses: set<GrvStatus>) {
    e.row.purchaseOrderLine == Some(poLine)
    && StatusOf(grvs, e.row.goodsReceipt).Some?
    && StatusOf(grvs, e.row.goodsReceipt).value in statuses
  }

  /** `PurchaseOrderLine.received_quantity_with_status`: the sum over the counted receipt lines. */
  function ReceivedWithStatus(grvs: Table<GoodsReceipt>, lines: Table<GoodsReceiptLine>, poLine: nat, statuses: set<GrvStatus>): int
  {
    if lines == [] then 0
    else
      var last := lines[|lines| - 1];
      ReceivedWithStatus(grvs, lines[..|lines| - 1], poLine, statuses)
        + (if Counts(grvs, last, poLine, statuses) then last.row.quantity else 0)
  }

  /** The statuses `outstanding_for_grv` counts: draft and closed receipts. */
  const ReceiptStatuses: set<GrvStatus> := {GrvStatus.Draft, GrvStatus.Closed}

  /** The statuses `outstanding_for_po_closure` counts: closed receipts only. */
  const ClosureStatuses: set<GrvStatus> := {GrvStatus.Closed}

  /** `PurchaseOrderLine.outstanding_for_grv`. */
  function OutstandingForGrv(grvs: Table<GoodsReceipt>, lines: Table<GoodsReceiptLine>, line: Entry<PurchaseOrderLine>): int {
    line.row.quantity - ReceivedWithStatus(grvs, lines, line.id, ReceiptStatuses)
  }

  /** `PurchaseOrderLine.outstanding_for_po_closure`. */
  function OutstandingForPoClosure(grvs: Table<GoodsReceipt>, lines: Table<GoodsReceiptLine>, line: Entry<PurchaseOrderLine>): int {
    line.row.quantity - ReceivedWithStatus(grvs, lines, line.id, ClosureStatuses)
  }

  /** `PurchaseOrder.is_fully_received` for order `po`: `all(...)` over its lines. */
  function IsFullyReceived(poLines: Table<PurchaseOrderLine>, grvs: Table<GoodsReceipt>, lines: Table<GoodsReceiptLine>, po: nat): bool {
    if poLines == [] then true
    else
      var last := poLines[|poLines| - 1];
      IsFullyReceived(poLines[..|poLines| - 1], grvs, lines, po)
        && (last.row.purchaseOrder != po || OutstandingForPoClosure(grvs, lines, last) <= 0)
  }

  /** Fully received means every line of the order has nothing outstanding for closure; no lines, vacuously so. */
  lemma {:induction false} FullyReceivedIff(poLines: Table<PurchaseOrderLine>, grvs: Table<GoodsReceipt>, lines: Table<GoodsReceiptLine>, po: nat)
    ensures IsFullyReceived(poLines, grvs, lines, po) <==>
      forall i :: 0 <= i < |poLines| && poLines[i].row.purchaseOrder == po ==> OutstandingForPoClosure(grvs, lines, poLines[i]) <= 0
  {
    if poLines != [] {
      var n := |poLines| - 1;
      FullyReceivedIff(poLines[..n], grvs, lines, po);
      assert forall i :: 0 <= i < n ==> poLines[..n][i] == poLines[i];
    }
  }

  /** An order without lines is fully received. */
  lemma NoLinesFullyReceived(poLines: Table<PurchaseOrderLine>, grvs: Table<GoodsReceipt>, lines: Table<GoodsReceiptLine>, po: nat)
    requires forall i :: 0 <= i < |poLines| ==> poLines[i].row.purchaseOrder != po
    ensures IsFullyReceived(poLines, grvs, lines, po)
  {
    FullyReceivedIff(poLines, grvs, lines, po);
  }

  /** With no receipt line referencing it, a line has received nothing in any status. */
  lemma {:induction false} NothingReceived(grvs: Table<GoodsReceipt>, lines: Table<GoodsReceiptLine>, poLine: nat, statuses: set<GrvStatus>)
    requires forall i :: 0 <= i < |lines| ==> lines[i].row.purchaseOrderLine != Some(poLine)
    ensures ReceivedWithStatus(grvs, lines, poLine, statuses) == 0
  {
    if lines != [] {
      NothingReceived(grvs, lines[..|lines| - 1], poLine, statuses);
    }
  }

  /** Lines none of which counts add nothing. */
  lemma {:induction false} NoneCounts(grvs: Table<GoodsReceipt>, lines: Table<GoodsReceiptLine>, poLine: nat, statuses: set<GrvStatus>)
    requires forall i :: 0 <= i < |lines| ==> !Counts(grvs, lines[i], poLine, statuses)
    ensures ReceivedWithStatus(grvs, lines, poLine, statuses) == 0
  {
    if lines != [] {
      NoneCounts(grvs, lines[..|lines| - 1], poLine, statuses);
    }
  }

  /** Without receipts both outstanding quantities equal the ordered quantity. */
  lemma NoReceiptsOutstandingIsQuantity(grvs: Table<GoodsReceipt>, lines: Table<GoodsReceiptLine>, line: Entry<PurchaseOrderLine>)
    requires forall i :: 0 <= i < |lines| ==> lines[i].row.purchaseOrderLine != Some(line.id)
    ensures OutstandingForGrv(grvs, lines, line) == line.row.quantity
    ensures OutstandingForPoClosure(grvs, lines, line) == line.row.quantity
  {
    NothingReceived(grvs, lines, line.id, ReceiptStatuses);
    NothingReceived(grvs, lines, line.id, ClosureStatuses);
  }

  /** Sums over disjoint status sets add up. */
  lemma {:induction false} ReceivedSplit(grvs: Table<GoodsReceipt>, lines: Table<GoodsReceiptLine>, poLine: nat, s: set<GrvStatus>, t: set<GrvStatus>)
    requires s !! t
    ensures ReceivedWithStatus(grvs, lines, poLine, s + t)
         == ReceivedWithStatus(grvs, lines, poLine, s) + ReceivedWithStatus(grvs, lines, poLine, t)
  {
    if lines != [] {
      ReceivedSplit(grvs, lines[..|lines| - 1], poLine, s, t);
    }
  }

  /**
   * Draft receipts reduce the quantity outstanding for a new receipt but not the
   * quantity outstanding for closure: the two differ by exactly what draft receipts hold.
   */
  lemma DraftReceiptsGap(grvs: Table<GoodsReceipt>, lines: Table<GoodsReceiptLine>, line: Entry<PurchaseOrderLine>)
    ensures OutstandingForPoClosure(grvs, lines, line) - OutstandingForGrv(grvs, lines, line)
         == ReceivedWithStatus(grvs, lines, line.id, {GrvStatus.Draft})
  {
    ReceivedSplit(grvs, lines, line.id, {GrvStatus.Draft}, ClosureStatuses);
    assert {GrvStatus.Draft} + ClosureStatuses == ReceiptStatuses;
  }

  /** A sum over a concatenation of line tables is the sum of the two sums. */
  lemma {:induction false} ReceivedAppend(grvs: Table<GoodsReceipt>, lines: Table<GoodsReceiptLine>, more: Table<GoodsReceiptLine>, poLine: nat, s: set<GrvStatus>)
    ensures ReceivedWithStatus(grvs, lines + more, poLine, s)
         == ReceivedWithStatus(grvs, lines, poLine, s) + ReceivedWithStatus(grvs, more, poLine, s)
  {
    if more == [] {
      assert lines + more == lines;
    } else {
      var n := |more| - 1;
      assert (lines + more)[..|lines + more| - 1] == lines + more[..n];
      assert (lines + more)[|lines + more| - 1] == more[n];
      ReceivedAppend(grvs, lines, more[..n], poLine, s);
    }
  }

  predicate NotCancelled(grvs: Table<GoodsReceipt>, e: Entry<GoodsReceiptLine>) {
    StatusOf(grvs, e.row.goodsReceipt) != Some(GrvStatus.Cancelled)
  }

  /** Lines of cancelled receipts never count towards either outstanding quantity. */
  lemma {:induction false} CancelledNeverCounts(grvs: Table<GoodsReceipt>, lines: Table<GoodsReceiptLine>, poLine: nat, s: set<GrvStatus>)
    requires GrvStatus.Cancelled !in s
    ensures ReceivedWithStatus(grvs, lines, poLine, s)
         == ReceivedWithStatus(grvs, Filter(lines, (e: Entry<GoodsReceiptLine>) => NotCancelled(grvs, e)), poLine, s)
  {
    if lines != [] {
      CancelledNeverCounts(grvs, lines[..|lines| - 1], poLine, s);
    }
  }

  /** What receipt `g` holds against purchase-order line `poLine`, whatever its status. */
  function HeldBy(lines: Table<GoodsReceiptLine>, g: nat, poLine: nat): int {
    if lines == [] then 0
    else
      var last := lines[|lines| - 1];
      HeldBy(lines[..|lines| - 1], g, poLine)
        + (if last.row.goodsReceipt == g && last.row.purchaseOrderLine == Some(poLine) then last.row.quantity else 0)
  }

  /**
   * Closing draft receipt `g` leaves the quantity outstanding for a new receipt
   * unchanged and lowers the quantity outstanding for closure by what `g` holds.
   */
  lemma {:induction false} ClosingMovesDraftToClosed(grvs: Table<GoodsReceipt>, lines: Table<GoodsReceiptLine>, g: nat, poLine: nat)
    requires Ascending(grvs) && StatusOf(grvs, g) == Some(GrvStatus.Draft)
    ensures var closed := Put(grvs, g, Get(grvs, g).value.(status := GrvStatus.Closed));
      ReceivedWithStatus(closed, lines, poLine, ReceiptStatuses) == ReceivedWithStatus(grvs, lines, poLine, ReceiptStatuses)
      && ReceivedWithStatus(closed, lines, poLine, ClosureStatuses)
         == ReceivedWithStatus(grvs, lines, poLine, ClosureStatuses) + HeldBy(lines, g, poLine)
  {
    var closed := Put(grvs, g, Get(grvs, g).value.(status := GrvStatus.Closed));
    if lines != [] {
      var last := lines[|lines| - 1];
      ClosingMovesDraftToClosed(grvs, lines[..|lines| - 1], g, poLine);
      ClosedStatus(grvs, g, last.row.goodsReceipt);
    }
  }

  /** Closing receipt `g` changes its status to closed and no other receipt's status. */
  lemma ClosedStatus(grvs: Table<GoodsReceipt>, g: nat, x: nat)
    requires Ascending(grvs) && StatusOf(grvs, g).Some?
    ensures StatusOf(Put(grvs, g, Get(grvs, g).value.(status := GrvStatus.Closed)), x)
         == if x == g then Some(GrvStatus.Closed) else StatusOf(grvs, x)
  {
    GetPut(grvs, g, Get(grvs, g).value.(status := GrvStatus.Closed), x);
  }
}
