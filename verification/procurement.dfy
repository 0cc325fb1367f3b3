/**
 * The procurement tables and the workflow operations that change them: saving,
 * deleting and editing purchase orders, goods receipts and their lines, the
 * closure cascade, and seeding a receipt from a purchase order.
 */
module Procurement {
  import opened Wrappers
  import opened Statuses
  import opened Records
  import opened Tables
  import opened Validation
  import opened Ledger

  /** The whole persisted state, with the auto-increment counter of each table. */
  datatype Db = Db(
    pos: Table<PurchaseOrder>,
    poLines: Table<PurchaseOrderLine>,
    grvs: Table<GoodsReceipt>,
    grvLines: Table<GoodsReceiptLine>,
    batches: Table<ProductBatch>,
    nextPo: nat,
    nextPoLine: nat,
    nextGrv: nat,
    nextGrvLine: nat,
    nextBatch: nat)

  predicate Keyed(db: Db) {
    && WellKeyed(db.pos, db.nextPo)
    && WellKeyed(db.poLines, db.nextPoLine)
    && WellKeyed(db.grvs, db.nextGrv)
    && WellKeyed(db.grvLines, db.nextGrvLine)
    && WellKeyed(db.batches, db.nextBatch)
  }

  /** Every foreign key between the procurement tables points at a stored row. */
  predicate Linked(db: Db) {
    && (forall i :: 0 <= i < |db.poLines| ==> db.poLines[i].row.purchaseOrder in Ids(db.pos))
    && (forall i :: 0 <= i < |db.grvs| && db.grvs[i].row.purchaseOrder.Some? ==>
          db.grvs[i].row.purchaseOrder.value in Ids(db.pos))
    && (forall i :: 0 <= i < |db.grvLines| ==> db.grvLines[i].row.goodsReceipt in Ids(db.grvs))
    && (forall i :: 0 <= i < |db.grvLines| && db.grvLines[i].row.purchaseOrderLine.Some? ==>
          db.grvLines[i].row.purchaseOrderLine.value in Ids(db.poLines))
  }

  /**
   * The batch-to-line link is one-to-one, points at a stored receipt line, and
   * only lines of closed receipts have a batch.
   */
  predicate BatchesLinked(db: Db) {
    && (forall j :: 0 <= j < |db.batches| && db.batches[j].row.goodsReceiptLine.Some? ==>
          db.batches[j].row.goodsReceiptLine.value in Ids(db.grvLines))
    && (forall j, k ::
          0 <= j < |db.batches| && 0 <= k < |db.grvLines| && db.batches[j].row.goodsReceiptLine == Some(db.grvLines[k].id)
          ==> StatusOf(db.grvs, db.grvLines[k].row.goodsReceipt) == Some(GrvStatus.Closed))
    && (forall j, j' :: 0 <= j < j' < |db.batches| && db.batches[j].row.goodsReceiptLine.Some? ==>
          db.batches[j].row.goodsReceiptLine != db.batches[j'].row.goodsReceiptLine)
  }

  predicate Consistent(db: Db) {
    Keyed(db) && Linked(db) && BatchesLinked(db)
  }

  /** Some receipt line fulfils purchase-order line `id` (PROTECT on delete). */
  predicate HasReceipts(grvLines: Table<GoodsReceiptLine>, id: nat) {
    exists k | 0 <= k < |grvLines| :: grvLines[k].row.purchaseOrderLine == Some(id)
  }

  /** Some batch was made from receipt line `id` (PROTECT on delete). */
  predicate HasBatch(batches: Table<ProductBatch>, id: nat) {
    exists j | 0 <= j < |batches| :: batches[j].row.goodsReceiptLine == Some(id)
  }

  /** The batch closure makes from one receipt line, in the receipt's warehouse. */
  function BatchFor(line: Entry<GoodsReceiptLine>, warehouse: nat): (b: ProductBatch)
    requires line.row.expiryDate.Some?
  {
    ProductBatch(Some(line.id), line.row.product, warehouse, line.row.quantity, line.row.expiryDate.value, "")
  }

  /** Every line of receipt `g` carries an expiry date. */
  predicate ExpiriesSet(lines: Table<GoodsReceiptLine>, g: nat) {
    forall i :: 0 <= i < |lines| && lines[i].row.goodsReceipt == g ==> lines[i].row.expiryDate.Some?
  }

  /** The lines of receipt `g`, in key order (`self.lines`). */
  function LinesOf(lines: Table<GoodsReceiptLine>, g: nat): Table<GoodsReceiptLine> {
    Filter(lines, (e: Entry<GoodsReceiptLine>) => e.row.goodsReceipt == g)
  }

  /** The batches the closure of receipt `g` creates: one per line, in line order. */
  function ClosureBatches(lines: Table<GoodsReceiptLine>, g: nat, warehouse: nat): (bs: seq<ProductBatch>)
    requires ExpiriesSet(lines, g)
  {
    var mine := LinesOf(lines, g);
    seq(|mine|, k requires 0 <= k < |mine| => (assert mine[k] in mine; BatchFor(mine[k], warehouse)))
  }

  /** Overwriting a stored purchase order keeps the state consistent. */
  lemma ConsistentPutPo(db: Db, key: nat, po: PurchaseOrder)
    requires Consistent(db)
    ensures Consistent(db.(pos := Put(db.pos, key, po)))
  {
    PutKeys(db.pos, key, po, db.nextPo);
  }

  /** Inserting a purchase order under the next key keeps the state consistent. */
  lemma ConsistentInsertPo(db: Db, po: PurchaseOrder)
    requires Consistent(db)
    ensures Consistent(db.(pos := Insert(db.pos, db.nextPo, po), nextPo := db.nextPo + 1))
  {
  }

  lemma ConsistentInsertPoLine(db: Db, line: PurchaseOrderLine)
    requires Consistent(db) && line.purchaseOrder in Ids(db.pos)
    ensures Consistent(db.(poLines := Insert(db.poLines, db.nextPoLine, line), nextPoLine := db.nextPoLine + 1))
  {
  }

  lemma ConsistentPutPoLine(db: Db, id: nat, line: PurchaseOrderLine)
    requires Consistent(db) && line.purchaseOrder in Ids(db.pos)
    ensures Consistent(db.(poLines := Put(db.poLines, id, line)))
  {
    PutKeys(db.poLines, id, line, db.nextPoLine);
  }

  lemma ConsistentRemovePoLine(db: Db, id: nat)
    requires Consistent(db) && !HasReceipts(db.grvLines, id)
    ensures Consistent(db.(poLines := Remove(db.poLines, id)))
  {
    RemoveKeys(db.poLines, id, db.nextPoLine);
  }

  lemma ConsistentInsertGrvLine(db: Db, line: GoodsReceiptLine)
    requires Consistent(db) && line.goodsReceipt in Ids(db.grvs)
    requires line.purchaseOrderLine.Some? ==> line.purchaseOrderLine.value in Ids(db.poLines)
    ensures Consistent(db.(grvLines := Insert(db.grvLines, db.nextGrvLine, line), nextGrvLine := db.nextGrvLine + 1))
  {
    var db' := db.(grvLines := Insert(db.grvLines, db.nextGrvLine, line), nextGrvLine := db.nextGrvLine + 1);
    assert forall k :: 0 <= k < |db.grvLines| ==> db'.grvLines[k] == db.grvLines[k];
  }

  lemma ConsistentPutGrvLine(db: Db, id: nat, line: GoodsReceiptLine)
    requires Consistent(db) && line.goodsReceipt in Ids(db.grvs)
    requires line.purchaseOrderLine.Some? ==> line.purchaseOrderLine.value in Ids(db.poLines)
    requires !HasBatch(db.batches, id)
    ensures Consistent(db.(grvLines := Put(db.grvLines, id, line)))
  {
    PutKeys(db.grvLines, id, line, db.nextGrvLine);
    PutGrvLineLinked(db, id, line);
    PutGrvLineBatchesLinked(db, id, line);
  }

  lemma PutGrvLineLinked(db: Db, id: nat, line: GoodsReceiptLine)
    requires Linked(db) && line.goodsReceipt in Ids(db.grvs)
    requires line.purchaseOrderLine.Some? ==> line.purchaseOrderLine.value in Ids(db.poLines)
    ensures Linked(db.(grvLines := Put(db.grvLines, id, line)))
  {
  }

  lemma PutGrvLineBatchesLinked(db: Db, id: nat, line: GoodsReceiptLine)
    requires BatchesLinked(db) && !HasBatch(db.batches, id)
    requires Ids(Put(db.grvLines, id, line)) == Ids(db.grvLines)
    ensures BatchesLinked(db.(grvLines := Put(db.grvLines, id, line)))
  {
    var u := Put(db.grvLines, id, line);
    forall j, k | 0 <= j < |db.batches| && 0 <= k < |u| && db.batches[j].row.goodsReceiptLine == Some(u[k].id)
      ensures StatusOf(db.grvs, u[k].row.goodsReceipt) == Some(GrvStatus.Closed)
    {
      assert db.grvLines[k].id != id;
    }
  }

  lemma ConsistentRemoveGrvLine(db: Db, id: nat)
    requires Consistent(db) && !HasBatch(db.batches, id)
    ensures Consistent(db.(grvLines := Remove(db.grvLines, id)))
  {
    RemoveKeys(db.grvLines, id, db.nextGrvLine);
    RemoveGrvLineLinked(db, id);
    RemoveGrvLineBatchesLinked(db, id);
  }

  lemma RemoveGrvLineLinked(db: Db, id: nat)
    requires Linked(db)
    ensures Linked(db.(grvLines := Remove(db.grvLines, id)))
  {
    var u := Remove(db.grvLines, id);
    forall k | 0 <= k < |u| ensures u[k] in db.grvLines {
      assert u[k] in u;
    }
  }

  lemma RemoveGrvLineBatchesLinked(db: Db, id: nat)
    requires BatchesLinked(db) && !HasBatch(db.batches, id)
    requires Ids(Remove(db.grvLines, id)) == Ids(db.grvLines) - {id}
    ensures BatchesLinked(db.(grvLines := Remove(db.grvLines, id)))
  {
    var u := Remove(db.grvLines, id);
    forall j, k | 0 <= j < |db.batches| && 0 <= k < |u| && db.batches[j].row.goodsReceiptLine == Some(u[k].id)
      ensures StatusOf(db.grvs, u[k].row.goodsReceipt) == Some(GrvStatus.Closed)
    {
      assert u[k] in db.grvLines;
    }
  }

  /** A line whose receipt is not closed has no batch. */
  lemma NoBatchUnlessClosed(db: Db, id: nat, line: GoodsReceiptLine)
    requires Consistent(db) && Get(db.grvLines, id) == Some(line)
    requires StatusOf(db.grvs, line.goodsReceipt) != Some(GrvStatus.Closed)
    ensures !HasBatch(db.batches, id)
  {
    assert Entry(id, line) in db.grvLines;
  }

  /** `on_delete=SET_NULL`: a receipt that named order `po` no longer names any. */
  function Detach(g: GoodsReceipt, po: nat): (d: GoodsReceipt)
    ensures g.purchaseOrder == Some(po) ==> d.purchaseOrder.None?
    ensures g.purchaseOrder != Some(po) ==> d == g
    ensures d.(purchaseOrder := g.purchaseOrder) == g
  {
    if g.purchaseOrder == Some(po) then g.(purchaseOrder := None) else g
  }

  /** Some line of order `po` is fulfilled by a receipt line (deleting `po` cascades into PROTECT). */
  predicate OrderLinesReceived(db: Db, po: nat) {
    exists i | 0 <= i < |db.poLines| :: db.poLines[i].row.purchaseOrder == po && HasReceipts(db.grvLines, db.poLines[i].id)
  }

  /** The state after deleting order `id`: its lines cascade, receipts that named it are detached. */
  function DeletedPo(db: Db, id: nat): Db {
    db.(pos := Remove(db.pos, id),
        poLines := Filter(db.poLines, (e: Entry<PurchaseOrderLine>) => e.row.purchaseOrder != id),
        grvs := MapRows(db.grvs, (g: GoodsReceipt) => Detach(g, id)))
  }

  /** The state after deleting receipt `id`: its lines cascade. */
  function DeletedGrv(db: Db, id: nat): Db {
    db.(grvs := Remove(db.grvs, id),
        grvLines := Filter(db.grvLines, (e: Entry<GoodsReceiptLine>) => e.row.goodsReceipt != id))
  }

  lemma ConsistentDeletePo(db: Db, id: nat)
    requires Consistent(db) && !OrderLinesReceived(db, id)
    ensures Consistent(DeletedPo(db, id))
  {
    var d := DeletedPo(db, id);
    var keep := (e: Entry<PurchaseOrderLine>) => e.row.purchaseOrder != id;
    RemoveKeys(db.pos, id, db.nextPo);
    FilterKeys(db.poLines, keep, db.nextPoLine);
    GetMapRows(db.grvs, (g: GoodsReceipt) => Detach(g, id), 0);
    assert Keyed(d);
    DeletePoLinked(db, id);
    DeletePoBatches(db, id);
  }

  lemma DeletePoLinked(db: Db, id: nat)
    requires Consistent(db) && !OrderLinesReceived(db, id)
    ensures Linked(DeletedPo(db, id))
  {
    var d := DeletedPo(db, id);
    DeletePoKeepsOrderLinks(db, id);
    DeletePoKeepsReceiptLinks(db, id);
    GetMapRows(db.grvs, (g: GoodsReceipt) => Detach(g, id), 0);
    assert forall i :: 0 <= i < |d.grvLines| ==> d.grvLines[i].row.goodsReceipt in Ids(d.grvs);
  }

  /** After deleting order `id`, remaining order lines and receipts point at remaining orders. */
  lemma DeletePoKeepsOrderLinks(db: Db, id: nat)
    requires Consistent(db)
    ensures var d := DeletedPo(db, id);
      && (forall i :: 0 <= i < |d.poLines| ==> d.poLines[i].row.purchaseOrder in Ids(d.pos))
      && (forall i :: 0 <= i < |d.grvs| && d.grvs[i].row.purchaseOrder.Some? ==> d.grvs[i].row.purchaseOrder.value in Ids(d.pos))
  {
    var d := DeletedPo(db, id);
    RemoveKeys(db.pos, id, db.nextPo);
    forall i | 0 <= i < |d.poLines| ensures d.poLines[i].row.purchaseOrder in Ids(d.pos) {
      assert d.poLines[i] in db.poLines;
    }
    forall i | 0 <= i < |d.grvs| && d.grvs[i].row.purchaseOrder.Some?
      ensures d.grvs[i].row.purchaseOrder.value in Ids(d.pos)
    {
      assert d.grvs[i].row.purchaseOrder == db.grvs[i].row.purchaseOrder;
    }
  }

  /** After deleting order `id`, every receipt line's order line survives. */
  lemma DeletePoKeepsReceiptLinks(db: Db, id: nat)
    requires Linked(db) && !OrderLinesReceived(db, id)
    ensures var d := DeletedPo(db, id);
      forall i :: 0 <= i < |d.grvLines| && d.grvLines[i].row.purchaseOrderLine.Some? ==>
        d.grvLines[i].row.purchaseOrderLine.value in Ids(d.poLines)
  {
    var keep := (e: Entry<PurchaseOrderLine>) => e.row.purchaseOrder != id;
    IdsFilter(db.poLines, keep);
    forall i | 0 <= i < |db.grvLines| && db.grvLines[i].row.purchaseOrderLine.Some?
      ensures db.grvLines[i].row.purchaseOrderLine.value in Ids(Filter(db.poLines, keep))
    {
      var k :| 0 <= k < |db.poLines| && db.poLines[k].id == db.grvLines[i].row.purchaseOrderLine.value;
      assert HasReceipts(db.grvLines, db.poLines[k].id);
      assert keep(db.poLines[k]);
    }
  }

  lemma DeletePoBatches(db: Db, id: nat)
    requires BatchesLinked(db) && Ascending(db.grvs)
    ensures BatchesLinked(DeletedPo(db, id))
  {
    var d := DeletedPo(db, id);
    forall j, k | 0 <= j < |d.batches| && 0 <= k < |d.grvLines| && d.batches[j].row.goodsReceiptLine == Some(d.grvLines[k].id)
      ensures StatusOf(d.grvs, d.grvLines[k].row.goodsReceipt) == Some(GrvStatus.Closed)
    {
      DetachKeepsStatus(db.grvs, id, d.grvLines[k].row.goodsReceipt);
    }
  }

  /** Detaching receipts from order `id` changes no receipt's status. */
  lemma DetachKeepsStatus(grvs: Table<GoodsReceipt>, id: nat, g: nat)
    requires Ascending(grvs)
    ensures StatusOf(MapRows(grvs, (r: GoodsReceipt) => Detach(r, id)), g) == StatusOf(grvs, g)
  {
    GetMapRows(grvs, (r: GoodsReceipt) => Detach(r, id), g);
  }

  lemma ConsistentDeleteGrv(db: Db, id: nat)
    requires Consistent(db) && StatusOf(db.grvs, id) == Some(GrvStatus.Draft)
    ensures Consistent(DeletedGrv(db, id))
  {
    var d := DeletedGrv(db, id);
    RemoveKeys(db.grvs, id, db.nextGrv);
    FilterKeys(db.grvLines, (e: Entry<GoodsReceiptLine>) => e.row.goodsReceipt != id, db.nextGrvLine);
    assert Keyed(d);
    DeleteGrvLinked(db, id);
    DeleteGrvBatches(db, id);
  }

  lemma DeleteGrvLinked(db: Db, id: nat)
    requires Consistent(db)
    ensures Linked(DeletedGrv(db, id))
  {
    var d := DeletedGrv(db, id);
    RemoveKeys(db.grvs, id, db.nextGrv);
    forall i | 0 <= i < |d.grvLines| ensures d.grvLines[i].row.goodsReceipt in Ids(d.grvs) {
      assert d.grvLines[i] in db.grvLines;
    }
    forall i | 0 <= i < |d.grvLines| && d.grvLines[i].row.purchaseOrderLine.Some?
      ensures d.grvLines[i].row.purchaseOrderLine.value in Ids(d.poLines)
    {
      assert d.grvLines[i] in db.grvLines;
    }
  }

  lemma DeleteGrvBatches(db: Db, id: nat)
    requires BatchesLinked(db) && WellKeyed(db.grvs, db.nextGrv) && StatusOf(db.grvs, id) == Some(GrvStatus.Draft)
    ensures BatchesLinked(DeletedGrv(db, id))
  {
    var d := DeletedGrv(db, id);
    DeleteGrvKeepsBatchedLines(db, id);
    RemoveKeys(db.grvs, id, db.nextGrv);
    forall j, k | 0 <= j < |d.batches| && 0 <= k < |d.grvLines| && d.batches[j].row.goodsReceiptLine == Some(d.grvLines[k].id)
      ensures StatusOf(d.grvs, d.grvLines[k].row.goodsReceipt) == Some(GrvStatus.Closed)
    {
      assert d.grvLines[k] in db.grvLines;
      BatchedClosed(db, j, d.grvLines[k]);
    }
  }

  /** A stored receipt line with a batch belongs to a closed receipt. */
  lemma BatchedClosed(db: Db, j: nat, e: Entry<GoodsReceiptLine>)
    requires BatchesLinked(db) && e in db.grvLines
    requires j < |db.batches| && db.batches[j].row.goodsReceiptLine == Some(e.id)
    ensures StatusOf(db.grvs, e.row.goodsReceipt) == Some(GrvStatus.Closed)
  {
    var k :| 0 <= k < |db.grvLines| && db.grvLines[k] == e;
  }

  /** Deleting a draft receipt removes no line that has a batch. */
  lemma DeleteGrvKeepsBatchedLines(db: Db, id: nat)
    requires BatchesLinked(db) && StatusOf(db.grvs, id) == Some(GrvStatus.Draft)
    ensures var d := DeletedGrv(db, id);
      forall j :: 0 <= j < |d.batches| && d.batches[j].row.goodsReceiptLine.Some? ==>
        d.batches[j].row.goodsReceiptLine.value in Ids(d.grvLines)
  {
    var d := DeletedGrv(db, id);
    IdsFilter(db.grvLines, (e: Entry<GoodsReceiptLine>) => e.row.goodsReceipt != id);
    forall j | 0 <= j < |d.batches| && d.batches[j].row.goodsReceiptLine.Some?
      ensures d.batches[j].row.goodsReceiptLine.value in Ids(d.grvLines)
    {
      var k :| 0 <= k < |db.grvLines| && db.grvLines[k].id == d.batches[j].row.goodsReceiptLine.value;
      assert StatusOf(db.grvs, db.grvLines[k].row.goodsReceipt) == Some(GrvStatus.Closed);
    }
  }

  /** No line of receipt `g` has a batch yet. */
  predicate Unbatched(db: Db, g: nat) {
    forall i :: 0 <= i < |db.grvLines| && db.grvLines[i].row.goodsReceipt == g ==> !HasBatch(db.batches, db.grvLines[i].id)
  }

  /** The state once `handle_closure` has made the batches of receipt `g`. */
  function WithBatches(db: Db, g: nat, warehouse: nat): (d: Db)
    requires ExpiriesSet(db.grvLines, g)
    ensures d.(batches := db.batches, nextBatch := db.nextBatch) == db
  {
    var bs := ClosureBatches(db.grvLines, g, warehouse);
    db.(batches := db.batches + Numbered(bs, db.nextBatch), nextBatch := db.nextBatch + |bs|)
  }

  lemma ConsistentInsertGrv(db: Db, grv: GoodsReceipt)
    requires Consistent(db)
    requires grv.purchaseOrder.Some? ==> grv.purchaseOrder.value in Ids(db.pos)
    ensures Consistent(db.(grvs := Insert(db.grvs, db.nextGrv, grv), nextGrv := db.nextGrv + 1))
    ensures Unbatched(db.(grvs := Insert(db.grvs, db.nextGrv, grv), nextGrv := db.nextGrv + 1), db.nextGrv)
    ensures ExpiriesSet(db.grvLines, db.nextGrv)
  {
    NewReceiptHasNoLines(db);
    InsertGrvLinked(db, grv);
    InsertGrvBatchesLinked(db, grv);
  }

  /** No stored line belongs to the receipt key the counter hands out next. */
  lemma NewReceiptHasNoLines(db: Db)
    requires Linked(db) && Below(db.grvs, db.nextGrv)
    ensures forall i :: 0 <= i < |db.grvLines| ==> db.grvLines[i].row.goodsReceipt != db.nextGrv
  {
    forall i | 0 <= i < |db.grvLines| ensures db.grvLines[i].row.goodsReceipt != db.nextGrv {
      var g :| 0 <= g < |db.grvs| && db.grvs[g].id == db.grvLines[i].row.goodsReceipt;
    }
  }

  lemma InsertGrvLinked(db: Db, grv: GoodsReceipt)
    requires Linked(db) && WellKeyed(db.grvs, db.nextGrv)
    requires grv.purchaseOrder.Some? ==> grv.purchaseOrder.value in Ids(db.pos)
    ensures Linked(db.(grvs := Insert(db.grvs, db.nextGrv, grv), nextGrv := db.nextGrv + 1))
  {
    var d := db.(grvs := Insert(db.grvs, db.nextGrv, grv), nextGrv := db.nextGrv + 1);
    assert forall k :: 0 <= k < |db.grvs| ==> d.grvs[k] == db.grvs[k];
  }

  lemma InsertGrvBatchesLinked(db: Db, grv: GoodsReceipt)
    requires BatchesLinked(db) && WellKeyed(db.grvs, db.nextGrv)
    requires forall i :: 0 <= i < |db.grvLines| ==> db.grvLines[i].row.goodsReceipt != db.nextGrv
    ensures BatchesLinked(db.(grvs := Insert(db.grvs, db.nextGrv, grv), nextGrv := db.nextGrv + 1))
  {
    var d := db.(grvs := Insert(db.grvs, db.nextGrv, grv), nextGrv := db.nextGrv + 1);
    forall j, k | 0 <= j < |d.batches| && 0 <= k < |d.grvLines| && d.batches[j].row.goodsReceiptLine == Some(d.grvLines[k].id)
      ensures StatusOf(d.grvs, d.grvLines[k].row.goodsReceipt) == Some(GrvStatus.Closed)
    {
      assert StatusOf(db.grvs, db.grvLines[k].row.goodsReceipt) == Some(GrvStatus.Closed);
    }
  }

  lemma ConsistentPutGrv(db: Db, key: nat, grv: GoodsReceipt)
    requires Consistent(db) && Get(db.grvs, key).Some?
    requires grv.purchaseOrder.Some? ==> grv.purchaseOrder.value in Ids(db.pos)
    requires grv.status != GrvStatus.Closed ==> Get(db.grvs, key).value.status != GrvStatus.Closed
    ensures Consistent(db.(grvs := Put(db.grvs, key, grv)))
  {
    PutKeys(db.grvs, key, grv, db.nextGrv);
    PutGrvLinked(db, key, grv);
    PutGrvBatchesLinked(db, key, grv);
  }

  lemma PutGrvLinked(db: Db, key: nat, grv: GoodsReceipt)
    requires Linked(db) && Ids(Put(db.grvs, key, grv)) == Ids(db.grvs)
    requires grv.purchaseOrder.Some? ==> grv.purchaseOrder.value in Ids(db.pos)
    ensures Linked(db.(grvs := Put(db.grvs, key, grv)))
  {
  }

  lemma PutGrvBatchesLinked(db: Db, key: nat, grv: GoodsReceipt)
    requires BatchesLinked(db) && Ascending(db.grvs) && Get(db.grvs, key).Some?
    requires grv.status != GrvStatus.Closed ==> Get(db.grvs, key).value.status != GrvStatus.Closed
    ensures BatchesLinked(db.(grvs := Put(db.grvs, key, grv)))
  {
    var d := db.(grvs := Put(db.grvs, key, grv));
    forall j, k | 0 <= j < |d.batches| && 0 <= k < |d.grvLines| && d.batches[j].row.goodsReceiptLine == Some(d.grvLines[k].id)
      ensures StatusOf(d.grvs, d.grvLines[k].row.goodsReceipt) == Some(GrvStatus.Closed)
    {
      GetPut(db.grvs, key, grv, d.grvLines[k].row.goodsReceipt);
      assert StatusOf(db.grvs, db.grvLines[k].row.goodsReceipt) == Some(GrvStatus.Closed);
    }
  }

  /** A receipt that was not closed has no batches, whatever is written over its header. */
  lemma UnbatchedUntilClosed(db: Db, key: nat)
    requires Consistent(db) && StatusOf(db.grvs, key).Some? && StatusOf(db.grvs, key) != Some(GrvStatus.Closed)
    ensures Unbatched(db, key)
  {
    forall i | 0 <= i < |db.grvLines| && db.grvLines[i].row.goodsReceipt == key
      ensures !HasBatch(db.batches, db.grvLines[i].id)
    {
      NoBatchUnlessClosed(db, db.grvLines[i].id, db.grvLines[i].row);
    }
  }

  /** Making the batch of one line of a closed receipt that has none keeps the state consistent. */
  lemma ConsistentInsertBatch(db: Db, line: Entry<GoodsReceiptLine>, warehouse: nat)
    requires Consistent(db) && line in db.grvLines && line.row.expiryDate.Some?
    requires StatusOf(db.grvs, line.row.goodsReceipt) == Some(GrvStatus.Closed)
    requires !HasBatch(db.batches, line.id)
    ensures Consistent(db.(batches := Insert(db.batches, db.nextBatch, BatchFor(line, warehouse)), nextBatch := db.nextBatch + 1))
  {
    var d := db.(batches := Insert(db.batches, db.nextBatch, BatchFor(line, warehouse)), nextBatch := db.nextBatch + 1);
    assert Keyed(d);
    assert Linked(d) by {
      assert d.pos == db.pos && d.poLines == db.poLines && d.grvs == db.grvs && d.grvLines == db.grvLines;
    }
    InsertBatchLinked(db, line, warehouse);
  }

  /** The batch link stays one-to-one and confined to closed receipts when one more line gets its batch. */
  lemma InsertBatchLinked(db: Db, line: Entry<GoodsReceiptLine>, warehouse: nat)
    requires Consistent(db) && line in db.grvLines && line.row.expiryDate.Some?
    requires StatusOf(db.grvs, line.row.goodsReceipt) == Some(GrvStatus.Closed)
    requires !HasBatch(db.batches, line.id)
    ensures BatchesLinked(db.(batches := Insert(db.batches, db.nextBatch, BatchFor(line, warehouse)), nextBatch := db.nextBatch + 1))
  {
    var d := db.(batches := Insert(db.batches, db.nextBatch, BatchFor(line, warehouse)), nextBatch := db.nextBatch + 1);
    NewBatchStored(db, d, line, warehouse);
    NewBatchClosed(db, d, line, warehouse);
    NewBatchDistinct(db, d, line, warehouse);
  }

  lemma NewBatchStored(db: Db, d: Db, line: Entry<GoodsReceiptLine>, warehouse: nat)
    requires BatchesLinked(db) && line in db.grvLines && line.row.expiryDate.Some?
    requires d == db.(batches := db.batches + [Entry(db.nextBatch, BatchFor(line, warehouse))], nextBatch := db.nextBatch + 1)
    ensures forall j :: 0 <= j < |d.batches| && d.batches[j].row.goodsReceiptLine.Some? ==>
      d.batches[j].row.goodsReceiptLine.value in Ids(d.grvLines)
  {
    forall j | 0 <= j < |d.batches| && d.batches[j].row.goodsReceiptLine.Some?
      ensures d.batches[j].row.goodsReceiptLine.value in Ids(d.grvLines)
    {
      if j < |db.batches| {
        assert d.batches[j] == db.batches[j];
      }
    }
  }

  lemma NewBatchClosed(db: Db, d: Db, line: Entry<GoodsReceiptLine>, warehouse: nat)
    requires BatchesLinked(db) && Ascending(db.grvLines) && line in db.grvLines && line.row.expiryDate.Some?
    requires StatusOf(db.grvs, line.row.goodsReceipt) == Some(GrvStatus.Closed)
    requires d == db.(batches := db.batches + [Entry(db.nextBatch, BatchFor(line, warehouse))], nextBatch := db.nextBatch + 1)
    ensures forall j, k ::
      0 <= j < |d.batches| && 0 <= k < |d.grvLines| && d.batches[j].row.goodsReceiptLine == Some(d.grvLines[k].id)
      ==> StatusOf(d.grvs, d.grvLines[k].row.goodsReceipt) == Some(GrvStatus.Closed)
  {
    forall j, k | 0 <= j < |d.batches| && 0 <= k < |d.grvLines| && d.batches[j].row.goodsReceiptLine == Some(d.grvLines[k].id)
      ensures StatusOf(d.grvs, d.grvLines[k].row.goodsReceipt) == Some(GrvStatus.Closed)
    {
      if j < |db.batches| {
        assert d.batches[j] == db.batches[j];
      } else {
        var m :| 0 <= m < |db.grvLines| && db.grvLines[m] == line;
        assert m == k;
      }
    }
  }

  lemma NewBatchDistinct(db: Db, d: Db, line: Entry<GoodsReceiptLine>, warehouse: nat)
    requires BatchesLinked(db) && !HasBatch(db.batches, line.id) && line.row.expiryDate.Some?
    requires d == db.(batches := db.batches + [Entry(db.nextBatch, BatchFor(line, warehouse))], nextBatch := db.nextBatch + 1)
    ensures forall j, j' :: 0 <= j < j' < |d.batches| && d.batches[j].row.goodsReceiptLine.Some? ==>
      d.batches[j].row.goodsReceiptLine != d.batches[j'].row.goodsReceiptLine
  {
    forall j, j' | 0 <= j < j' < |d.batches| && d.batches[j].row.goodsReceiptLine.Some?
      ensures d.batches[j].row.goodsReceiptLine != d.batches[j'].row.goodsReceiptLine
    {
      assert d.batches[j] == db.batches[j];
      if j' < |db.batches| {
        assert d.batches[j'] == db.batches[j'];
      }
    }
  }

  /** The state after the first `i` batches of the closure of receipt `g`. */
  function BatchesUpTo(db: Db, g: nat, warehouse: nat, i: nat): Db
    requires ExpiriesSet(db.grvLines, g) && i <= |LinesOf(db.grvLines, g)|
  {
    var bs := ClosureBatches(db.grvLines, g, warehouse);
    db.(batches := db.batches + Numbered(bs[..i], db.nextBatch), nextBatch := db.nextBatch + i)
  }

  /** One turn of the closure loop: the next line's batch is inserted, and consistency is kept. */
  lemma BatchStep(db: Db, g: nat, warehouse: nat, i: nat)
    requires Consistent(db) && StatusOf(db.grvs, g) == Some(GrvStatus.Closed)
    requires ExpiriesSet(db.grvLines, g) && Unbatched(db, g)
    requires i < |LinesOf(db.grvLines, g)|
    requires Consistent(BatchesUpTo(db, g, warehouse, i))
    ensures LinesOf(db.grvLines, g)[i].row.expiryDate.Some?
    ensures var d := BatchesUpTo(db, g, warehouse, i);
      BatchesUpTo(db, g, warehouse, i + 1)
        == d.(batches := Insert(d.batches, d.nextBatch, BatchFor(LinesOf(db.grvLines, g)[i], warehouse)), nextBatch := d.nextBatch + 1)
    ensures Consistent(BatchesUpTo(db, g, warehouse, i + 1))
  {
    var lines := LinesOf(db.grvLines, g);
    var d := BatchesUpTo(db, g, warehouse, i);
    assert lines[i] in lines;
    NextLineUnbatched(db, g, warehouse, i);
    BatchesUpToSnoc(db, g, warehouse, i);
    ConsistentInsertBatch(d, lines[i], warehouse);
  }

  lemma BatchesUpToSnoc(db: Db, g: nat, warehouse: nat, i: nat)
    requires Keyed(db) && ExpiriesSet(db.grvLines, g)
    requires i < |LinesOf(db.grvLines, g)|
    ensures LinesOf(db.grvLines, g)[i].row.expiryDate.Some?
    ensures var d := BatchesUpTo(db, g, warehouse, i);
      BatchesUpTo(db, g, warehouse, i + 1)
        == d.(batches := Insert(d.batches, d.nextBatch, BatchFor(LinesOf(db.grvLines, g)[i], warehouse)), nextBatch := d.nextBatch + 1)
  {
    var lines := LinesOf(db.grvLines, g);
    var bs := ClosureBatches(db.grvLines, g, warehouse);
    assert lines[i] in lines;
    NumberedSnoc(bs[..i], bs[i], db.nextBatch);
    assert bs[..i + 1] == bs[..i] + [bs[i]];
  }

  /** Before turn `i` of the closure loop, no batch names line `i` of the receipt. */
  lemma NextLineUnbatched(db: Db, g: nat, warehouse: nat, i: nat)
    requires Keyed(db) && ExpiriesSet(db.grvLines, g) && Unbatched(db, g)
    requires i < |LinesOf(db.grvLines, g)|
    ensures !HasBatch(BatchesUpTo(db, g, warehouse, i).batches, LinesOf(db.grvLines, g)[i].id)
  {
    var lines := LinesOf(db.grvLines, g);
    var bs := ClosureBatches(db.grvLines, g, warehouse);
    var d := BatchesUpTo(db, g, warehouse, i);
    var line := lines[i];
    assert line in lines;
    FilterKeys(db.grvLines, (e: Entry<GoodsReceiptLine>) => e.row.goodsReceipt == g, db.nextGrvLine);
    forall j | 0 <= j < |d.batches| ensures d.batches[j].row.goodsReceiptLine != Some(line.id) {
      if j < |db.batches| {
        var m :| 0 <= m < |db.grvLines| && db.grvLines[m] == line;
        assert d.batches[j] == db.batches[j];
      } else {
        var k := j - |db.batches|;
        assert lines[k] in lines;
        assert d.batches[j].row == bs[k];
        assert lines[k].id < line.id;
      }
    }
  }

  /** The closure keeps the state consistent, batch after batch. */
  lemma {:induction false} ConsistentBatchesUpTo(db: Db, g: nat, warehouse: nat, i: nat)
    requires Consistent(db) && StatusOf(db.grvs, g) == Some(GrvStatus.Closed)
    requires ExpiriesSet(db.grvLines, g) && Unbatched(db, g)
    requires i <= |LinesOf(db.grvLines, g)|
    ensures Consistent(BatchesUpTo(db, g, warehouse, i))
  {
    if i == 0 {
      assert BatchesUpTo(db, g, warehouse, 0) == db;
    } else {
      ConsistentBatchesUpTo(db, g, warehouse, i - 1);
      BatchStep(db, g, warehouse, i - 1);
    }
  }

  /** Making every batch of a closed receipt whose lines have none keeps the state consistent. */
  lemma ConsistentWithBatches(db: Db, g: nat, warehouse: nat)
    requires Consistent(db) && StatusOf(db.grvs, g) == Some(GrvStatus.Closed)
    requires ExpiriesSet(db.grvLines, g) && Unbatched(db, g)
    ensures Consistent(WithBatches(db, g, warehouse))
  {
    var n := |LinesOf(db.grvLines, g)|;
    ConsistentBatchesUpTo(db, g, warehouse, n);
    assert ClosureBatches(db.grvLines, g, warehouse)[..n] == ClosureBatches(db.grvLines, g, warehouse);
  }

  /**
   * The batch loop of `handle_closure`: for each line of receipt `g`, in key
   * order, a batch is inserted under the next batch key.
   */
  method BatchRun(db: Db, g: nat, warehouse: nat) returns (d: Db)
    requires Keyed(db) && ExpiriesSet(db.grvLines, g)
    ensures d == WithBatches(db, g, warehouse)
  {
    var lines := LinesOf(db.grvLines, g);
    d := db;
    assert ClosureBatches(db.grvLines, g, warehouse)[..0] == [];
    var i := 0;
    while i < |lines|
      invariant 0 <= i <= |lines|
      invariant d == BatchesUpTo(db, g, warehouse, i)
      invariant WellKeyed(d.batches, d.nextBatch)
    {
      BatchesUpToSnoc(db, g, warehouse, i);
      d := d.(batches := Insert(d.batches, d.nextBatch, BatchFor(lines[i], warehouse)), nextBatch := d.nextBatch + 1);
      i := i + 1;
    }
    assert ClosureBatches(db.grvLines, g, warehouse)[..i] == ClosureBatches(db.grvLines, g, warehouse);
  }

  /**
   * Step 2 of `handle_closure` for order `po`: `po.status = "received"` and
   * `po.save()`, run only when the order is fully received, and kept only
   * when the order's own check lets the status change through.
   */
  function ReceiveOrder(db: Db, po: nat): (d: Db)
    ensures d.(pos := db.pos) == db
  {
    match Get(db.pos, po)
    case None => db
    case Some(p) =>
      if IsFullyReceived(db.poLines, db.grvs, db.grvLines, po) && PoAccepts(p.status, PoStatus.Received)
      then db.(pos := Put(db.pos, po, p.(status := PoStatus.Received)))
      else db
  }

  /** Receiving an order keeps the state consistent. */
  lemma ConsistentReceive(db: Db, po: nat)
    requires Consistent(db)
    ensures Consistent(ReceiveOrder(db, po))
  {
    if Get(db.pos, po).Some? {
      ConsistentPutPo(db, po, Get(db.pos, po).value.(status := PoStatus.Received));
    }
  }

  /** The order is fully received but its status may not become received: `po.save()` raises. */
  predicate ReceiveRefused(db: Db, po: nat) {
    && Get(db.pos, po).Some?
    && IsFullyReceived(db.poLines, db.grvs, db.grvLines, po)
    && !PoAccepts(Get(db.pos, po).value.status, PoStatus.Received)
  }

  /** `handle_closure` of receipt `g`, saved as `grv`: the batches, then the order check. */
  function AfterClosure(db: Db, g: nat, grv: GoodsReceipt): (d: Db)
    requires ExpiriesSet(db.grvLines, g)
    ensures d.grvs == db.grvs && d.grvLines == db.grvLines && d.nextGrv == db.nextGrv
    ensures d.poLines == db.poLines
  {
    var d := WithBatches(db, g, grv.warehouse);
    if grv.purchaseOrder.Some? then ReceiveOrder(d, grv.purchaseOrder.value) else d
  }

  /** `handle_closure` of receipt `g` raises nothing. */
  predicate ClosureAccepted(db: Db, g: nat, grv: GoodsReceipt)
    requires ExpiriesSet(db.grvLines, g)
  {
    grv.purchaseOrder.None? || !ReceiveRefused(WithBatches(db, g, grv.warehouse), grv.purchaseOrder.value)
  }

  /** The lines of order `po`, in key order (`po.lines.all()`). */
  function OrderLines(poLines: Table<PurchaseOrderLine>, po: nat): Table<PurchaseOrderLine> {
    Filter(poLines, (e: Entry<PurchaseOrderLine>) => e.row.purchaseOrder == po)
  }

  /** The receipt line seeded into receipt `g` for order line `line`: the outstanding quantity, no expiry date. */
  function SeedFor(g: nat, line: Entry<PurchaseOrderLine>, outstanding: int): GoodsReceiptLine {
    GoodsReceiptLine(g, Some(line.id), line.row.product, outstanding, None, line.row.unitPrice)
  }

  /** The receipt lines seeding creates in receipt `g` for order lines `ls`, against the receipts stored in `db`. */
  function Seeds(db: Db, g: nat, ls: Table<PurchaseOrderLine>): seq<GoodsReceiptLine> {
    if ls == [] then []
    else
      var last := ls[|ls| - 1];
      var outstanding := OutstandingForGrv(db.grvs, db.grvLines, last);
      Seeds(db, g, ls[..|ls| - 1]) + (if outstanding > 0 then [SeedFor(g, last, outstanding)] else [])
  }

  /** The state after inserting the receipt lines `seeds` one after another. */
  function WithSeeds(db: Db, seeds: seq<GoodsReceiptLine>): (d: Db)
    ensures WellKeyed(db.grvLines, db.nextGrvLine) ==> WellKeyed(d.grvLines, d.nextGrvLine)
  {
    NumberedKeys(db.grvLines, seeds, db.nextGrvLine);
    db.(grvLines := db.grvLines + Numbered(seeds, db.nextGrvLine), nextGrvLine := db.nextGrvLine + |seeds|)
  }

  /** The state after seeding receipt `g` from every line of order `po`. */
  function Seeded(db: Db, g: nat, po: nat): Db {
    WithSeeds(db, Seeds(db, g, OrderLines(db.poLines, po)))
  }

  /** Every seeded line belongs to receipt `g`, has no expiry date and fulfils one of the given order lines. */
  lemma {:induction false} SeedsShape(db: Db, g: nat, ls: Table<PurchaseOrderLine>)
    ensures forall x :: x in Seeds(db, g, ls) ==>
      x.goodsReceipt == g && x.expiryDate.None? && x.purchaseOrderLine.Some? && x.purchaseOrderLine.value in Ids(ls)
  {
    if ls != [] {
      var n := |ls| - 1;
      SeedsShape(db, g, ls[..n]);
      assert forall j :: 0 <= j < n ==> ls[..n][j] == ls[j];
    }
  }

  /** Seeded lines of order lines other than `l` hold nothing against `l`. */
  lemma SeedsMissLine(db: Db, g: nat, ls: Table<PurchaseOrderLine>, grvs: Table<GoodsReceipt>, l: nat, start: nat, s: set<GrvStatus>)
    requires l !in Ids(ls)
    ensures ReceivedWithStatus(grvs, Numbered(Seeds(db, g, ls), start), l, s) == 0
  {
    SeedsShape(db, g, ls);
    var u := Numbered(Seeds(db, g, ls), start);
    forall i | 0 <= i < |u| ensures u[i].row.purchaseOrderLine != Some(l) {
      assert u[i].row in Seeds(db, g, ls);
    }
    NothingReceived(grvs, u, l, s);
  }

  /** At most one seeded line, for order line `last`: what it holds against order line `l`. */
  lemma OneSeedHolds(grvs: Table<GoodsReceipt>, g: nat, last: Entry<PurchaseOrderLine>, outstanding: int, l: nat, at: nat, s: set<GrvStatus>)
    requires StatusOf(grvs, g) == Some(GrvStatus.Draft)
    ensures var tail := if outstanding > 0 then [SeedFor(g, last, outstanding)] else [];
      ReceivedWithStatus(grvs, Numbered(tail, at), l, s)
        == if last.id == l && outstanding > 0 && GrvStatus.Draft in s then outstanding else 0
  {
    var tail := if outstanding > 0 then [SeedFor(g, last, outstanding)] else [];
    assert Numbered(tail, at)[..|tail|] == Numbered(tail, at);
    if outstanding > 0 {
      assert Numbered(tail, at)[..0] == [];
    }
  }

  /**
   * Against a draft receipt `g`, the seeded lines hold exactly the outstanding
   * quantity of each order line they were seeded for, and only in the statuses
   * that count draft receipts.
   */
  lemma {:induction false} SeedsHoldOutstanding(db: Db, g: nat, ls: Table<PurchaseOrderLine>, grvs: Table<GoodsReceipt>, l: Entry<PurchaseOrderLine>, start: nat, s: set<GrvStatus>)
    requires Ascending(ls) && l in ls && StatusOf(grvs, g) == Some(GrvStatus.Draft)
    ensures var outstanding := OutstandingForGrv(db.grvs, db.grvLines, l);
      ReceivedWithStatus(grvs, Numbered(Seeds(db, g, ls), start), l.id, s)
        == if outstanding > 0 && GrvStatus.Draft in s then outstanding else 0
  {
    var n := |ls| - 1;
    SeedsHeldSplit(db, g, ls, grvs, l.id, start, s);
    if ls[n] == l {
      forall j | 0 <= j < n ensures ls[..n][j].id != l.id {
        assert ls[j].id < ls[n].id;
      }
      SeedsMissLine(db, g, ls[..n], grvs, l.id, start, s);
    } else {
      var k :| 0 <= k < |ls| && ls[k] == l;
      assert k < n && ls[..n][k] == l;
      assert ls[k].id < ls[n].id;
      SeedsHoldOutstanding(db, g, ls[..n], grvs, l, start, s);
    }
  }

  /** What the seeds of a non-empty run of order lines hold: the seeds of all but the last, plus the last one's own seed. */
  lemma SeedsHeldSplit(db: Db, g: nat, ls: Table<PurchaseOrderLine>, grvs: Table<GoodsReceipt>, l: nat, start: nat, s: set<GrvStatus>)
    requires ls != [] && StatusOf(grvs, g) == Some(GrvStatus.Draft)
    ensures var n := |ls| - 1;
      var outstanding := OutstandingForGrv(db.grvs, db.grvLines, ls[n]);
      ReceivedWithStatus(grvs, Numbered(Seeds(db, g, ls), start), l, s)
        == ReceivedWithStatus(grvs, Numbered(Seeds(db, g, ls[..n]), start), l, s)
         + (if ls[n].id == l && outstanding > 0 && GrvStatus.Draft in s then outstanding else 0)
  {
    var n := |ls| - 1;
    var last := ls[n];
    var prefix := Seeds(db, g, ls[..n]);
    var outstanding := OutstandingForGrv(db.grvs, db.grvLines, last);
    var tail := if outstanding > 0 then [SeedFor(g, last, outstanding)] else [];
    NumberedAppend(prefix, tail, start);
    ReceivedAppend(grvs, Numbered(prefix, start), Numbered(tail, start + |prefix|), l, s);
    OneSeedHolds(grvs, g, last, outstanding, l, start + |prefix|, s);
  }

  /** Seeding from a prefix of the lines creates a prefix of the seeded lines. */
  lemma {:induction false} SeedsPrefix(db: Db, g: nat, ls: Table<PurchaseOrderLine>, i: nat)
    requires i <= |ls|
    ensures Seeds(db, g, ls[..i]) <= Seeds(db, g, ls)
  {
    if i < |ls| {
      var n := |ls| - 1;
      assert ls[..n][..i] == ls[..i];
      SeedsPrefix(db, g, ls[..n], i);
    } else {
      assert ls[..i] == ls;
    }
  }

  /** Seeding one more order line appends at most its own seed. */
  lemma SeedsSnoc(db: Db, g: nat, ls: Table<PurchaseOrderLine>, i: nat)
    requires i < |ls|
    ensures var outstanding := OutstandingForGrv(db.grvs, db.grvLines, ls[i]);
      Seeds(db, g, ls[..i + 1]) == Seeds(db, g, ls[..i]) + (if outstanding > 0 then [SeedFor(g, ls[i], outstanding)] else [])
  {
    assert ls[..i + 1][..i] == ls[..i];
    assert ls[..i + 1][i] == ls[i];
  }

  /** While seeding, the order line up next still shows the outstanding quantity it had before seeding began. */
  lemma SeedOutstandingUnchanged(db: Db, g: nat, ls: Table<PurchaseOrderLine>, i: nat)
    requires Ascending(ls) && i < |ls|
    ensures var d := WithSeeds(db, Seeds(db, g, ls[..i]));
      OutstandingForGrv(d.grvs, d.grvLines, ls[i]) == OutstandingForGrv(db.grvs, db.grvLines, ls[i])
  {
    var seeds := Seeds(db, g, ls[..i]);
    forall j | 0 <= j < i ensures ls[..i][j].id != ls[i].id {
      assert ls[j].id < ls[i].id;
    }
    SeedsMissLine(db, g, ls[..i], db.grvs, ls[i].id, db.nextGrvLine, ReceiptStatuses);
    ReceivedAppend(db.grvs, db.grvLines, Numbered(seeds, db.nextGrvLine), ls[i].id, ReceiptStatuses);
  }

  /** The lines of an order ascend by key and are stored order lines. */
  lemma OrderLinesStored(db: Db, po: nat)
    requires Keyed(db)
    ensures Ascending(OrderLines(db.poLines, po))
    ensures forall k :: 0 <= k < |OrderLines(db.poLines, po)| ==> OrderLines(db.poLines, po)[k].id in Ids(db.poLines)
  {
    var ls := OrderLines(db.poLines, po);
    FilterKeys(db.poLines, (e: Entry<PurchaseOrderLine>) => e.row.purchaseOrder == po, db.nextPoLine);
    forall k | 0 <= k < |ls| ensures ls[k].id in Ids(db.poLines) {
      assert ls[k] in ls;
    }
  }

  /** Every seed belongs to a stored receipt and fulfils a stored order line. */
  predicate SeedsStored(db: Db, seeds: seq<GoodsReceiptLine>) {
    forall x :: x in seeds ==>
      x.goodsReceipt in Ids(db.grvs) && x.purchaseOrderLine.Some? && x.purchaseOrderLine.value in Ids(db.poLines)
  }

  lemma SeedsLinked(db: Db, seeds: seq<GoodsReceiptLine>)
    requires Consistent(db) && SeedsStored(db, seeds)
    ensures Linked(WithSeeds(db, seeds))
  {
    var d := WithSeeds(db, seeds);
    forall i | 0 <= i < |d.grvLines|
      ensures d.grvLines[i].row.goodsReceipt in Ids(d.grvs)
      ensures d.grvLines[i].row.purchaseOrderLine.Some? ==> d.grvLines[i].row.purchaseOrderLine.value in Ids(d.poLines)
    {
      if i >= |db.grvLines| {
        assert d.grvLines[i].row == seeds[i - |db.grvLines|];
      }
    }
  }

  lemma SeedsBatchesLinked(db: Db, seeds: seq<GoodsReceiptLine>)
    requires Consistent(db)
    ensures BatchesLinked(WithSeeds(db, seeds))
  {
    var d := WithSeeds(db, seeds);
    forall j | 0 <= j < |d.batches| && d.batches[j].row.goodsReceiptLine.Some?
      ensures d.batches[j].row.goodsReceiptLine.value in Ids(d.grvLines)
    {
      var k :| 0 <= k < |db.grvLines| && db.grvLines[k].id == d.batches[j].row.goodsReceiptLine.value;
      assert d.grvLines[k] == db.grvLines[k];
    }
    forall j, k | 0 <= j < |d.batches| && 0 <= k < |d.grvLines| && d.batches[j].row.goodsReceiptLine == Some(d.grvLines[k].id)
      ensures StatusOf(d.grvs, d.grvLines[k].row.goodsReceipt) == Some(GrvStatus.Closed)
    {
      var k' :| 0 <= k' < |db.grvLines| && db.grvLines[k'].id == d.batches[j].row.goodsReceiptLine.value;
      assert d.grvLines[k] == db.grvLines[k];
    }
  }

  /** Appending seeds of stored receipts and order lines keeps the state consistent. */
  lemma ConsistentWithSeeds(db: Db, seeds: seq<GoodsReceiptLine>)
    requires Consistent(db) && SeedsStored(db, seeds)
    ensures Consistent(WithSeeds(db, seeds))
  {
    SeedsLinked(db, seeds);
    SeedsBatchesLinked(db, seeds);
  }

  /** Seeding a stored receipt from the lines of order `po` keeps the state consistent. */
  lemma ConsistentSeeded(db: Db, g: nat, po: nat)
    requires Consistent(db) && g in Ids(db.grvs)
    ensures Ascending(OrderLines(db.poLines, po)) && Consistent(Seeded(db, g, po))
  {
    var ls := OrderLines(db.poLines, po);
    OrderLinesStored(db, po);
    SeedsShape(db, g, ls);
    ConsistentWithSeeds(db, Seeds(db, g, ls));
  }

  /** One more iteration of the seeding loop: the next order line adds at most one insert. */
  lemma SeedsStep(db: Db, g: nat, ls: Table<PurchaseOrderLine>, i: nat)
    requires WellKeyed(db.grvLines, db.nextGrvLine) && Ascending(ls) && i < |ls|
    ensures var seeds := Seeds(db, g, ls[..i]);
      var d := WithSeeds(db, seeds);
      var outstanding := OutstandingForGrv(d.grvs, d.grvLines, ls[i]);
      && Seeds(db, g, ls[..i + 1]) == seeds + (if outstanding > 0 then [SeedFor(g, ls[i], outstanding)] else [])
      && (outstanding > 0 ==>
            WithSeeds(db, Seeds(db, g, ls[..i + 1]))
              == d.(grvLines := Insert(d.grvLines, d.nextGrvLine, SeedFor(g, ls[i], outstanding)), nextGrvLine := d.nextGrvLine + 1))
  {
    var seeds := Seeds(db, g, ls[..i]);
    SeedsSnoc(db, g, ls, i);
    SeedOutstandingUnchanged(db, g, ls, i);
    var outstanding := OutstandingForGrv(db.grvs, db.grvLines, ls[i]);
    if outstanding > 0 {
      WithSeedsSnoc(db, seeds, SeedFor(g, ls[i], outstanding));
    }
  }

  /** Inserting one more seeded line extends the seeded state by one insert. */
  lemma WithSeedsSnoc(db: Db, seeds: seq<GoodsReceiptLine>, x: GoodsReceiptLine)
    requires WellKeyed(db.grvLines, db.nextGrvLine)
    ensures var d := WithSeeds(db, seeds);
      WithSeeds(db, seeds + [x]) == d.(grvLines := Insert(d.grvLines, d.nextGrvLine, x), nextGrvLine := d.nextGrvLine + 1)
  {
    NumberedSnoc(seeds, x, db.nextGrvLine);
    assert db.grvLines + Numbered(seeds + [x], db.nextGrvLine)
        == (db.grvLines + Numbered(seeds, db.nextGrvLine)) + [Entry(db.nextGrvLine + |seeds|, x)];
  }

  /**
   * The seeding loop of `GoodsReceiptCreateView.form_valid`: for each line of
   * the order, in key order, a receipt line carrying the outstanding quantity,
   * when that is positive, is inserted into receipt `g`. Each insert runs the
   * line's own check, which refuses a receipt that is not in draft, so the
   * loop stops at the first line it would seed for such a receipt.
   */
  method SeedRun(db: Db, g: nat, ls: Table<PurchaseOrderLine>, draft: bool) returns (r: Result<Db, Error>)
    requires WellKeyed(db.grvLines, db.nextGrvLine) && Ascending(ls)
    ensures r.Success? <==> draft || Seeds(db, g, ls) == []
    ensures r.Success? ==> r.value == WithSeeds(db, Seeds(db, g, ls))
    ensures r.Failure? ==> r.error == ParentNotDraft
  {
    assert ls[..0] == [];
    assert db.grvLines + Numbered([], db.nextGrvLine) == db.grvLines;
    var d := db;
    ghost var seeds: seq<GoodsReceiptLine> := [];
    var i := 0;
    while i < |ls|
      invariant 0 <= i <= |ls|
      invariant seeds == Seeds(db, g, ls[..i])
      invariant d == WithSeeds(db, seeds)
      invariant !draft ==> seeds == []
    {
      SeedsStep(db, g, ls, i);
      var outstanding := OutstandingForGrv(d.grvs, d.grvLines, ls[i]);
      if outstanding > 0 {
        if !draft {
          SeedsPrefix(db, g, ls, i + 1);
          return Failure(ParentNotDraft);
        }
        d := d.(grvLines := Insert(d.grvLines, d.nextGrvLine, SeedFor(g, ls[i], outstanding)), nextGrvLine := d.nextGrvLine + 1);
        seeds := seeds + [SeedFor(g, ls[i], outstanding)];
      }
      i := i + 1;
    }
    assert ls[..i] == ls;
    r := Success(d);
  }

  class Store {
    var pos: Table<PurchaseOrder>
    var poLines: Table<PurchaseOrderLine>
    var grvs: Table<GoodsReceipt>
    var grvLines: Table<GoodsReceiptLine>
    var batches: Table<ProductBatch>
    var nextPo: nat
    var nextPoLine: nat
    var nextGrv: nat
    var nextGrvLine: nat
    var nextBatch: nat

    function Snapshot(): Db
      reads this
    {
      Db(pos, poLines, grvs, grvLines, batches, nextPo, nextPoLine, nextGrv, nextGrvLine, nextBatch)
    }

    ghost predicate Valid()
      reads this
    {
      Consistent(Snapshot())
    }

    /** Writes a consistent state back to the tables. */
    method Commit(d: Db)
      requires Consistent(d)
      modifies this
      ensures Valid() && Snapshot() == d
    {
      pos, poLines, grvs, grvLines, batches := d.pos, d.poLines, d.grvs, d.grvLines, d.batches;
      nextPo, nextPoLine, nextGrv, nextGrvLine, nextBatch := d.nextPo, d.nextPoLine, d.nextGrv, d.nextGrvLine, d.nextBatch;
      assert Snapshot() == d;
    }

    /** Empty tables; keys start at 1. */
    constructor ()
      ensures Valid()
      ensures Snapshot() == Db([], [], [], [], [], 1, 1, 1, 1, 1)
    {
      pos, poLines, grvs, grvLines, batches := [], [], [], [], [];
      nextPo, nextPoLine, nextGrv, nextGrvLine, nextBatch := 1, 1, 1, 1, 1;
    }

    /**
     * `PurchaseOrder.save`: a new order (no key) is inserted unchecked, in
     * whatever status it carries; an existing one must pass `clean` against
     * the stored row.
     */
    method SavePurchaseOrder(id: Option<nat>, po: PurchaseOrder) returns (r: Result<nat, Error>)
      requires Valid()
      modifies this
      ensures Valid()
      ensures id.None? ==>
        r == Success(old(nextPo))
        && Snapshot() == old(Snapshot()).(pos := Insert(old(pos), old(nextPo), po), nextPo := old(nextPo) + 1)
      ensures id.Some? && Get(old(pos), id.value).None? ==>
        r == Failure(NotFound) && Snapshot() == old(Snapshot())
      ensures id.Some? && Get(old(pos), id.value).Some? ==>
        var check := CleanPurchaseOrder(Get(old(pos), id.value), po);
        (check.Failure? ==> r == Failure(check.error) && Snapshot() == old(Snapshot()))
        && (check.Success? ==> r == Success(id.value) && Snapshot() == old(Snapshot()).(pos := Put(old(pos), id.value, po)))
    {
      match id
      case None =>
        ConsistentInsertPo(Snapshot(), po);
        r := Success(nextPo);
        Commit(Snapshot().(pos := Insert(pos, nextPo, po), nextPo := nextPo + 1));
      case Some(key) =>
        var stored := Get(pos, key);
        if stored.None? {
          return Failure(NotFound);
        }
        var check := CleanPurchaseOrder(stored, po);
        if check.Failure? {
          return Failure(check.error);
        }
        ConsistentPutPo(Snapshot(), key, po);
        Commit(Snapshot().(pos := Put(pos, key, po)));
        r := Success(key);
    }

    /** Adding a purchase-order line: the order must exist and be in draft. */
    method AddPoLine(line: PurchaseOrderLine) returns (r: Result<nat, Error>)
      requires Valid()
      modifies this
      ensures Valid()
      ensures Get(old(pos), line.purchaseOrder).None? ==> r == Failure(NotFound) && Snapshot() == old(Snapshot())
      ensures Get(old(pos), line.purchaseOrder).Some? && Get(old(pos), line.purchaseOrder).value.status != PoStatus.Draft ==>
        r == Failure(ParentNotDraft) && Snapshot() == old(Snapshot())
      ensures Get(old(pos), line.purchaseOrder).Some? && Get(old(pos), line.purchaseOrder).value.status == PoStatus.Draft ==>
        r == Success(old(nextPoLine))
        && Snapshot() == old(Snapshot()).(poLines := Insert(old(poLines), old(nextPoLine), line), nextPoLine := old(nextPoLine) + 1)
    {
      var parent := Get(pos, line.purchaseOrder);
      if parent.None? {
        return Failure(NotFound);
      }
      if parent.value.status != PoStatus.Draft {
        return Failure(ParentNotDraft);
      }
      ConsistentInsertPoLine(Snapshot(), line);
      r := Success(nextPoLine);
      Commit(Snapshot().(poLines := Insert(poLines, nextPoLine, line), nextPoLine := nextPoLine + 1));
    }

    /**
     * Editing purchase-order line `id`; `line.purchaseOrder` is the order named in
     * the request. The view refuses unless the line's current order is in draft,
     * and the line's own check refuses unless the order it will belong to is.
     */
    method EditPoLine(id: nat, line: PurchaseOrderLine) returns (r: Result<(), Error>)
      requires Valid()
      modifies this
      ensures Valid()
      ensures r.Failure? ==> Snapshot() == old(Snapshot())
      ensures Get(old(poLines), id).None? ==> r == Failure(NotFound)
      ensures Get(old(poLines), id).Some? ==>
        var current := Get(old(pos), Get(old(poLines), id).value.purchaseOrder);
        var target := Get(old(pos), line.purchaseOrder);
        r.Success? <==> current.Some? && current.value.status == PoStatus.Draft && target.Some? && target.value.status == PoStatus.Draft
      ensures r.Success? ==> Snapshot() == old(Snapshot()).(poLines := Put(old(poLines), id, line))
    {
      var stored := Get(poLines, id);
      if stored.None? {
        return Failure(NotFound);
      }
      var current := Get(pos, stored.value.purchaseOrder);
      if current.None? || current.value.status != PoStatus.Draft {
        return Failure(ParentNotDraft);
      }
      var target := Get(pos, line.purchaseOrder);
      if target.None? {
        return Failure(NotFound);
      }
      if target.value.status != PoStatus.Draft {
        return Failure(ParentNotDraft);
      }
      ConsistentPutPoLine(Snapshot(), id, line);
      Commit(Snapshot().(poLines := Put(poLines, id, line)));
      r := Success(());
    }

    /** Deleting purchase-order line `id`: its order must be in draft and no receipt line may fulfil it. */
    method DeletePoLine(id: nat) returns (r: Result<(), Error>)
      requires Valid()
      modifies this
      ensures Valid()
      ensures r.Failure? ==> Snapshot() == old(Snapshot())
      ensures Get(old(poLines), id).None? ==> r == Failure(NotFound)
      ensures Get(old(poLines), id).Some? ==>
        var parent := Get(old(pos), Get(old(poLines), id).value.purchaseOrder);
        (parent.Some? && parent.value.status != PoStatus.Draft ==> r == Failure(ParentNotDraft))
        && (r.Success? <==> parent.Some? && parent.value.status == PoStatus.Draft && !HasReceipts(old(grvLines), id))
      ensures r.Success? ==> Snapshot() == old(Snapshot()).(poLines := Remove(old(poLines), id))
    {
      var stored := Get(poLines, id);
      if stored.None? {
        return Failure(NotFound);
      }
      var parent := Get(pos, stored.value.purchaseOrder);
      if parent.None? || parent.value.status != PoStatus.Draft {
        return Failure(ParentNotDraft);
      }
      if HasReceipts(grvLines, id) {
        return Failure(ReferencedEntityProtected);
      }
      ConsistentRemovePoLine(Snapshot(), id);
      Commit(Snapshot().(poLines := Remove(poLines, id)));
      r := Success(());
    }

    /** Adding a line to receipt `grv` by hand: it fulfils no purchase-order line. */
    method AddGrvLine(grv: nat, product: nat, quantity: Hundredths, expiryDate: Option<Date>, unitPrice: Hundredths)
      returns (r: Result<nat, Error>)
      requires Valid()
      modifies this
      ensures Valid()
      ensures Get(old(grvs), grv).None? ==> r == Failure(NotFound) && Snapshot() == old(Snapshot())
      ensures Get(old(grvs), grv).Some? && Get(old(grvs), grv).value.status != GrvStatus.Draft ==>
        r == Failure(ParentNotDraft) && Snapshot() == old(Snapshot())
      ensures Get(old(grvs), grv).Some? && Get(old(grvs), grv).value.status == GrvStatus.Draft ==>
        r == Success(old(nextGrvLine))
        && Snapshot() == old(Snapshot()).(
             grvLines := Insert(old(grvLines), old(nextGrvLine), GoodsReceiptLine(grv, None, product, quantity, expiryDate, unitPrice)),
             nextGrvLine := old(nextGrvLine) + 1)
    {
      var parent := Get(grvs, grv);
      if parent.None? {
        return Failure(NotFound);
      }
      if parent.value.status != GrvStatus.Draft {
        return Failure(ParentNotDraft);
      }
      var line := GoodsReceiptLine(grv, None, product, quantity, expiryDate, unitPrice);
      ConsistentInsertGrvLine(Snapshot(), line);
      r := Success(nextGrvLine);
      Commit(Snapshot().(grvLines := Insert(grvLines, nextGrvLine, line), nextGrvLine := nextGrvLine + 1));
    }

    /**
     * Editing receipt line `id`; `grv` is the receipt named in the request. The
     * purchase-order line it fulfils is not a form field and is kept.
     */
    method EditGrvLine(id: nat, grv: nat, product: nat, quantity: Hundredths, expiryDate: Option<Date>, unitPrice: Hundredths)
      returns (r: Result<(), Error>)
      requires Valid()
      modifies this
      ensures Valid()
      ensures r.Failure? ==> Snapshot() == old(Snapshot())
      ensures Get(old(grvLines), id).None? ==> r == Failure(NotFound)
      ensures Get(old(grvLines), id).Some? ==>
        var stored := Get(old(grvLines), id).value;
        var current := Get(old(grvs), stored.goodsReceipt);
        var target := Get(old(grvs), grv);
        (r.Success? <==> current.Some? && current.value.status == GrvStatus.Draft && target.Some? && target.value.status == GrvStatus.Draft)
        && (r.Success? ==> Snapshot() == old(Snapshot()).(grvLines :=
              Put(old(grvLines), id, GoodsReceiptLine(grv, stored.purchaseOrderLine, product, quantity, expiryDate, unitPrice))))
    {
      var stored := Get(grvLines, id);
      if stored.None? {
        return Failure(NotFound);
      }
      var current := Get(grvs, stored.value.goodsReceipt);
      if current.None? || current.value.status != GrvStatus.Draft {
        return Failure(ParentNotDraft);
      }
      var target := Get(grvs, grv);
      if target.None? {
        return Failure(NotFound);
      }
      if target.value.status != GrvStatus.Draft {
        return Failure(ParentNotDraft);
      }
      var line := GoodsReceiptLine(grv, stored.value.purchaseOrderLine, product, quantity, expiryDate, unitPrice);
      NoBatchUnlessClosed(Snapshot(), id, stored.value);
      assert Entry(id, stored.value) in grvLines;
      ConsistentPutGrvLine(Snapshot(), id, line);
      Commit(Snapshot().(grvLines := Put(grvLines, id, line)));
      r := Success(());
    }

    /** Deleting receipt line `id`: its receipt must be in draft and no batch may have been made from it. */
    method DeleteGrvLine(id: nat) returns (r: Result<(), Error>)
      requires Valid()
      modifies this
      ensures Valid()
      ensures r.Failure? ==> Snapshot() == old(Snapshot())
      ensures Get(old(grvLines), id).None? ==> r == Failure(NotFound)
      ensures Get(old(grvLines), id).Some? ==>
        var parent := Get(old(grvs), Get(old(grvLines), id).value.goodsReceipt);
        (parent.Some? && parent.value.status != GrvStatus.Draft ==> r == Failure(ParentNotDraft))
        && (r.Success? <==> parent.Some? && parent.value.status == GrvStatus.Draft && !HasBatch(old(batches), id))
      ensures r.Success? ==> Snapshot() == old(Snapshot()).(grvLines := Remove(old(grvLines), id))
    {
      var stored := Get(grvLines, id);
      if stored.None? {
        return Failure(NotFound);
      }
      var parent := Get(grvs, stored.value.goodsReceipt);
      if parent.None? || parent.value.status != GrvStatus.Draft {
        return Failure(ParentNotDraft);
      }
      if HasBatch(batches, id) {
        return Failure(ReferencedEntityProtected);
      }
      ConsistentRemoveGrvLine(Snapshot(), id);
      Commit(Snapshot().(grvLines := Remove(grvLines, id)));
      r := Success(());
    }

    /**
     * Deleting purchase order `id`: only a draft order may go. Its lines go
     * with it, which is refused while a receipt line fulfils one of them, and
     * receipts that named it keep existing without an order.
     */
    method DeletePurchaseOrder(id: nat) returns (r: Result<(), Error>)
      requires Valid()
      modifies this
      ensures Valid()
      ensures r.Failure? ==> Snapshot() == old(Snapshot())
      ensures Get(old(pos), id).None? ==> r == Failure(NotFound)
      ensures Get(old(pos), id).Some? && Get(old(pos), id).value.status != PoStatus.Draft ==> r == Failure(NotDraft)
      ensures Get(old(pos), id).Some? && Get(old(pos), id).value.status == PoStatus.Draft && OrderLinesReceived(old(Snapshot()), id) ==>
        r == Failure(ReferencedEntityProtected)
      ensures r.Success? <==>
        Get(old(pos), id).Some? && Get(old(pos), id).value.status == PoStatus.Draft && !OrderLinesReceived(old(Snapshot()), id)
      ensures r.Success? ==> Snapshot() == DeletedPo(old(Snapshot()), id)
    {
      var stored := Get(pos, id);
      if stored.None? {
        return Failure(NotFound);
      }
      if stored.value.status != PoStatus.Draft {
        return Failure(NotDraft);
      }
      if OrderLinesReceived(Snapshot(), id) {
        return Failure(ReferencedEntityProtected);
      }
      ConsistentDeletePo(Snapshot(), id);
      Commit(DeletedPo(Snapshot(), id));
      r := Success(());
    }

    /**
     * Deleting goods receipt `id`: only a draft receipt may go, and its lines
     * go with it. No batch can stand in the way, since only lines of closed
     * receipts have one.
     */
    method DeleteGoodsReceipt(id: nat) returns (r: Result<(), Error>)
      requires Valid()
      modifies this
      ensures Valid()
      ensures r.Failure? ==> Snapshot() == old(Snapshot())
      ensures Get(old(grvs), id).None? ==> r == Failure(NotFound)
      ensures Get(old(grvs), id).Some? && Get(old(grvs), id).value.status != GrvStatus.Draft ==> r == Failure(NotDraft)
      ensures r.Success? <==> Get(old(grvs), id).Some? && Get(old(grvs), id).value.status == GrvStatus.Draft
      ensures r.Success? ==> Snapshot() == DeletedGrv(old(Snapshot()), id)
    {
      var stored := Get(grvs, id);
      if stored.None? {
        return Failure(NotFound);
      }
      if stored.value.status != GrvStatus.Draft {
        return Failure(NotDraft);
      }
      ConsistentDeleteGrv(Snapshot(), id);
      Commit(DeletedGrv(Snapshot(), id));
      r := Success(());
    }

    /**
     * Step 1 of `handle_closure` for receipt `g`: one batch per line, in line
     * order, each copying the line's product, quantity and expiry date and
     * stored in the receipt's warehouse.
     */
    method CreateBatches(g: nat, warehouse: nat)
      requires Valid() && StatusOf(grvs, g) == Some(GrvStatus.Closed)
      requires ExpiriesSet(grvLines, g) && Unbatched(Snapshot(), g)
      modifies this
      ensures Valid()
      ensures Snapshot() == WithBatches(old(Snapshot()), g, warehouse)
    {
      var db := Snapshot();
      var made := BatchRun(db, g, warehouse);
      ConsistentWithBatches(db, g, warehouse);
      Commit(made);
    }

    /** `handle_closure` of receipt `g`, just saved as `grv`. */
    method HandleClosure(g: nat, grv: GoodsReceipt) returns (r: Result<(), Error>)
      requires Valid() && Get(grvs, g) == Some(grv) && grv.status == GrvStatus.Closed
      requires grv.purchaseOrder.Some? ==> Get(pos, grv.purchaseOrder.value).Some?
      requires ExpiriesSet(grvLines, g) && Unbatched(Snapshot(), g)
      modifies this
      ensures Valid()
      ensures Snapshot() == AfterClosure(old(Snapshot()), g, grv)
      ensures r.Success? <==> ClosureAccepted(old(Snapshot()), g, grv)
      ensures r.Failure? ==> r.error.AutoCloseRefused?
    {
      CreateBatches(g, grv.warehouse);
      if grv.purchaseOrder.Some? {
        r := ReceiveIfComplete(grv.purchaseOrder.value);
      } else {
        r := Success(());
      }
    }

    /** Step 2 of `handle_closure`: move order `po` to received once every line is covered by closed receipts. */
    method ReceiveIfComplete(po: nat) returns (r: Result<(), Error>)
      requires Valid() && Get(pos, po).Some?
      modifies this
      ensures Valid()
      ensures Snapshot() == ReceiveOrder(old(Snapshot()), po)
      ensures r.Success? <==> !ReceiveRefused(old(Snapshot()), po)
      ensures r.Failure? ==>
        var s := Get(old(pos), po).value.status;
        r.error == AutoCloseRefused(InvalidTransition(s, PoStatus.Received, PoAllowed(s)))
    {
      ConsistentReceive(Snapshot(), po);
      var p := Get(pos, po).value;
      r := Success(());
      if IsFullyReceived(poLines, grvs, grvLines, po) {
        var closed := p.(status := PoStatus.Received);
        var check := CleanPurchaseOrder(Some(p), closed);
        if check.Failure? {
          r := Failure(AutoCloseRefused(check.error.po));
        } else {
          Commit(Snapshot().(pos := Put(pos, po, closed)));
        }
      }
    }

    /**
     * `GoodsReceipt.save` of a receipt with no key yet: no check runs, the row
     * is inserted, and when it is saved as closed `handle_closure` runs (on a
     * receipt that has no lines yet). A `purchaseOrder` that names no stored
     * order is refused as the form's choice field refuses it.
     */
    method InsertGoodsReceipt(grv: GoodsReceipt) returns (r: Result<nat, Error>)
      requires Valid()
      modifies this
      ensures Valid()
      ensures grv.purchaseOrder.Some? && Get(old(pos), grv.purchaseOrder.value).None? ==>
        r == Failure(NotFound) && Snapshot() == old(Snapshot())
      ensures grv.purchaseOrder.None? || Get(old(pos), grv.purchaseOrder.value).Some? ==>
        var written := old(Snapshot()).(grvs := Insert(old(grvs), old(nextGrv), grv), nextGrv := old(nextGrv) + 1);
        && ExpiriesSet(written.grvLines, old(nextGrv))
        && (grv.status != GrvStatus.Closed ==> r == Success(old(nextGrv)) && Snapshot() == written)
        && (grv.status == GrvStatus.Closed ==>
              && Snapshot() == AfterClosure(written, old(nextGrv), grv)
              && (r.Success? <==> ClosureAccepted(written, old(nextGrv), grv))
              && (r.Success? ==> r.value == old(nextGrv))
              && (r.Failure? ==> r.error.AutoCloseRefused?))
    {
      if grv.purchaseOrder.Some? && Get(pos, grv.purchaseOrder.value).None? {
        return Failure(NotFound);
      }
      ConsistentInsertGrv(Snapshot(), grv);
      var key := nextGrv;
      var written := Snapshot().(grvs := Insert(grvs, nextGrv, grv), nextGrv := nextGrv + 1);
      Commit(written);
      if grv.status == GrvStatus.Closed {
        var closure := HandleClosure(key, grv);
        assert Snapshot() == AfterClosure(written, key, grv);
        if closure.Failure? {
          return Failure(closure.error);
        }
      }
      r := Success(key);
    }

    /**
     * `GoodsReceipt.save` of stored receipt `key`: `clean` against the stored
     * row, then the write, then `handle_closure` when the stored status was
     * not closed and the new one is. A refusal of the order's auto-close
     * surfaces after the receipt and its batches are stored: nothing is
     * rolled back.
     */
    method UpdateGoodsReceipt(key: nat, grv: GoodsReceipt) returns (r: Result<nat, Error>)
      requires Valid()
      modifies this
      ensures Valid()
      ensures grv.purchaseOrder.Some? && Get(old(pos), grv.purchaseOrder.value).None? ==>
        r == Failure(NotFound) && Snapshot() == old(Snapshot())
      ensures Get(old(grvs), key).None? ==> r == Failure(NotFound) && Snapshot() == old(Snapshot())
      ensures (grv.purchaseOrder.None? || Get(old(pos), grv.purchaseOrder.value).Some?) && Get(old(grvs), key).Some? ==>
        var stored := Get(old(grvs), key).value;
        var check := CleanGoodsReceipt(Some(stored), grv, old(grvLines), key);
        var written := old(Snapshot()).(grvs := Put(old(grvs), key, grv));
        && (check.Failure? ==> r == Failure(check.error) && Snapshot() == old(Snapshot()))
        && (check.Success? && (stored.status == GrvStatus.Closed || grv.status != GrvStatus.Closed) ==>
              r == Success(key) && Snapshot() == written)
        && (check.Success? && stored.status != GrvStatus.Closed && grv.status == GrvStatus.Closed ==>
              && ExpiriesSet(written.grvLines, key)
              && Snapshot() == AfterClosure(written, key, grv)
              && (r.Success? <==> ClosureAccepted(written, key, grv))
              && (r.Success? ==> r.value == key)
              && (r.Failure? ==> r.error.AutoCloseRefused?))
    {
      if grv.purchaseOrder.Some? && Get(pos, grv.purchaseOrder.value).None? {
        return Failure(NotFound);
      }
      var stored := Get(grvs, key);
      if stored.None? {
        return Failure(NotFound);
      }
      var check := CleanGoodsReceipt(stored, grv, grvLines, key);
      if check.Failure? {
        return Failure(check.error);
      }
      GrvOnlyDraftToClosed(stored.value.status, grv.status);
      ConsistentPutGrv(Snapshot(), key, grv);
      GetPut(grvs, key, grv, key);
      if stored.value.status != GrvStatus.Closed {
        UnbatchedUntilClosed(Snapshot(), key);
      }
      Commit(Snapshot().(grvs := Put(grvs, key, grv)));
      if stored.value.status != GrvStatus.Closed && grv.status == GrvStatus.Closed {
        var closure := HandleClosure(key, grv);
        if closure.Failure? {
          return Failure(closure.error);
        }
      }
      r := Success(key);
    }

    /** Seeds stored receipt `g` from the lines of order `po` and stores what the loop inserted. */
    method SeedLines(g: nat, po: nat) returns (r: Result<(), Error>)
      requires Valid() && Get(grvs, g).Some?
      modifies this
      ensures Valid()
      ensures Get(old(grvs), g).value.status == GrvStatus.Draft ==>
        r == Success(()) && Snapshot() == Seeded(old(Snapshot()), g, po)
      ensures Get(old(grvs), g).value.status != GrvStatus.Draft ==>
        && Snapshot() == old(Snapshot())
        && (r.Success? <==> Seeds(old(Snapshot()), g, OrderLines(old(poLines), po)) == [])
        && (r.Failure? ==> r.error == ParentNotDraft)
    {
      var db := Snapshot();
      ConsistentSeeded(db, g, po);
      var draft := Get(grvs, g).value.status == GrvStatus.Draft;
      var seeded := SeedRun(db, g, OrderLines(poLines, po), draft);
      if seeded.Success? {
        Commit(seeded.value);
        r := Success(());
      } else {
        r := Failure(seeded.error);
      }
    }

    /**
     * `GoodsReceiptCreateView.form_valid`: the receipt names its order and is
     * stamped with the requesting user; the order must be submitted; the
     * header is saved, then the lines are seeded from the order.
     */
    method CreateGoodsReceiptFromPo(grv: GoodsReceipt, user: nat) returns (r: Result<nat, Error>)
      requires Valid()
      modifies this
      ensures Valid()
      ensures grv.purchaseOrder.None? ==> r == Failure(NoPurchaseOrder) && Snapshot() == old(Snapshot())
      ensures grv.purchaseOrder.Some? && Get(old(pos), grv.purchaseOrder.value).None? ==>
        r == Failure(NotFound) && Snapshot() == old(Snapshot())
      ensures grv.purchaseOrder.Some? && Get(old(pos), grv.purchaseOrder.value).Some?
              && Get(old(pos), grv.purchaseOrder.value).value.status != PoStatus.Submitted ==>
        r == Failure(PoStatusNotSubmitted) && Snapshot() == old(Snapshot())
      ensures grv.purchaseOrder.Some? && Get(old(pos), grv.purchaseOrder.value).Some?
              && Get(old(pos), grv.purchaseOrder.value).value.status == PoStatus.Submitted ==>
        && Get(grvs, old(nextGrv)) == Some(grv.(createdBy := Some(user)))
        && (r.Success? ==> r.value == old(nextGrv))
        && (grv.status == GrvStatus.Draft ==>
              var header := grv.(createdBy := Some(user));
              var written := old(Snapshot()).(grvs := Insert(old(grvs), old(nextGrv), header), nextGrv := old(nextGrv) + 1);
              r == Success(old(nextGrv)) && Snapshot() == Seeded(written, old(nextGrv), grv.purchaseOrder.value))
        && (grv.status != GrvStatus.Draft ==> grvLines == old(grvLines) && (r.Success? || r.error == ParentNotDraft))
    {
      var header := grv.(createdBy := Some(user));
      if header.purchaseOrder.None? {
        return Failure(NoPurchaseOrder);
      }
      var po := header.purchaseOrder.value;
      var order := Get(pos, po);
      if order.None? {
        return Failure(NotFound);
      }
      if order.value.status != PoStatus.Submitted {
        return Failure(PoStatusNotSubmitted);
      }
      PoAcceptsExactly(PoStatus.Submitted, PoStatus.Received);
      ghost var written := Snapshot().(grvs := Insert(grvs, nextGrv, header), nextGrv := nextGrv + 1);
      var saved := InsertGoodsReceipt(header);
      assert saved.Success? && grvs == written.grvs && grvLines == written.grvLines;
      assert header.status != GrvStatus.Closed ==> Snapshot() == written;
      ghost var mid := Snapshot();
      var seeded := SeedLines(saved.value, po);
      assert header.status == GrvStatus.Draft ==> Snapshot() == Seeded(written, saved.value, po);
      assert header.status != GrvStatus.Draft ==> Snapshot() == mid;
      if seeded.Failure? {
        return Failure(seeded.error);
      }
      r := saved;
    }

    /**
     * `GoodsReceiptUpdateView`: only a draft receipt may be edited; the form
     * does not carry `created_by`, which keeps its stored value.
     */
    method EditGoodsReceipt(id: nat, grv: GoodsReceipt) returns (r: Result<nat, Error>)
      requires Valid()
      modifies this
      ensures Valid()
      ensures Get(old(grvs), id).None? ==> r == Failure(NotFound) && Snapshot() == old(Snapshot())
      ensures Get(old(grvs), id).Some? && Get(old(grvs), id).value.status != GrvStatus.Draft ==>
        r == Failure(NotDraft) && Snapshot() == old(Snapshot())
      ensures Get(old(grvs), id).Some? && Get(old(grvs), id).value.status == GrvStatus.Draft ==>
        var stored := Get(old(grvs), id).value;
        var edited := grv.(createdBy := stored.createdBy);
        var check := CleanGoodsReceipt(Some(stored), edited, old(grvLines), id);
        var written := old(Snapshot()).(grvs := Put(old(grvs), id, edited));
        && (edited.purchaseOrder.Some? && Get(old(pos), edited.purchaseOrder.value).None? ==>
              r == Failure(NotFound) && Snapshot() == old(Snapshot()))
        && (edited.purchaseOrder.None? || Get(old(pos), edited.purchaseOrder.value).Some? ==>
              && (check.Failure? ==> r == Failure(check.error) && Snapshot() == old(Snapshot()))
              && (check.Success? && edited.status != GrvStatus.Closed ==> r == Success(id) && Snapshot() == written)
              && (check.Success? && edited.status == GrvStatus.Closed ==>
                    && ExpiriesSet(written.grvLines, id)
                    && Snapshot() == AfterClosure(written, id, edited)
                    && (r.Success? <==> ClosureAccepted(written, id, edited))
                    && (r.Success? ==> r.value == id)
                    && (r.Failure? ==> r.error.AutoCloseRefused?)))
    {
      var stored := Get(grvs, id);
      if stored.None? {
        return Failure(NotFound);
      }
      if stored.value.status != GrvStatus.Draft {
        return Failure(NotDraft);
      }
      r := UpdateGoodsReceipt(id, grv.(createdBy := stored.value.createdBy));
    }
  }
}
