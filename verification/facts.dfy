/**
 * What the workflow operations guarantee about the quantities, batches and
 * statuses they leave behind: seeding a receipt from an order, the batches of
 * a closure, and the automatic reception of an order.
 */
module ProcurementFacts {
  import opened Wrappers
  import opened Statuses
  import opened Records
  import opened Tables
  import opened Ledger
  import opened Procurement

  /**
   * Seeding draft receipt `g` from order `po` covers each order line exactly:
   * a line with something outstanding has nothing outstanding afterwards, and
   * a line with nothing outstanding is left as it was.
   */
  lemma SeedingFillsOutstanding(db: Db, g: nat, po: nat, l: Entry<PurchaseOrderLine>)
    requires Keyed(db) && StatusOf(db.grvs, g) == Some(GrvStatus.Draft) && l in OrderLines(db.poLines, po)
    ensures var before := OutstandingForGrv(db.grvs, db.grvLines, l);
      var d := Seeded(db, g, po);
      OutstandingForGrv(d.grvs, d.grvLines, l) == if before > 0 then 0 else before
  {
    var ls := OrderLines(db.poLines, po);
    OrderLinesStored(db, po);
    ReceivedAppend(db.grvs, db.grvLines, Numbered(Seeds(db, g, ls), db.nextGrvLine), l.id, ReceiptStatuses);
    SeedsHoldOutstanding(db, g, ls, db.grvs, l, db.nextGrvLine, ReceiptStatuses);
  }

  /** Seeding a draft receipt changes nothing that closure counts, for any order line. */
  lemma SeedingKeepsClosureCount(db: Db, g: nat, po: nat, poLine: nat)
    requires StatusOf(db.grvs, g) == Some(GrvStatus.Draft)
    ensures var d := Seeded(db, g, po);
      ReceivedWithStatus(d.grvs, d.grvLines, poLine, ClosureStatuses)
        == ReceivedWithStatus(db.grvs, db.grvLines, poLine, ClosureStatuses)
  {
    var seeds := Seeds(db, g, OrderLines(db.poLines, po));
    var u := Numbered(seeds, db.nextGrvLine);
    SeedsShape(db, g, OrderLines(db.poLines, po));
    forall i | 0 <= i < |u| ensures !Counts(db.grvs, u[i], poLine, ClosureStatuses) {
      assert u[i].row in seeds;
    }
    NoneCounts(db.grvs, u, poLine, ClosureStatuses);
    ReceivedAppend(db.grvs, db.grvLines, u, poLine, ClosureStatuses);
  }

  /** Seeding a draft receipt never makes an order fully received, nor stops one from being so. */
  lemma SeedingKeepsFullyReceived(db: Db, g: nat, po: nat, p: nat)
    requires StatusOf(db.grvs, g) == Some(GrvStatus.Draft)
    ensures var d := Seeded(db, g, po);
      IsFullyReceived(d.poLines, d.grvs, d.grvLines, p) == IsFullyReceived(db.poLines, db.grvs, db.grvLines, p)
  {
    var d := Seeded(db, g, po);
    FullyReceivedIff(db.poLines, db.grvs, db.grvLines, p);
    FullyReceivedIff(d.poLines, d.grvs, d.grvLines, p);
    forall i | 0 <= i < |db.poLines|
      ensures OutstandingForPoClosure(d.grvs, d.grvLines, db.poLines[i]) == OutstandingForPoClosure(db.grvs, db.grvLines, db.poLines[i])
    {
      SeedingKeepsClosureCount(db, g, po, db.poLines[i].id);
    }
  }

  /**
   * Seeding from order lines `ls`: an order line with a positive outstanding
   * quantity gets a receipt line that fulfils it, carries its product and unit
   * price, the outstanding quantity and no expiry date; a line with nothing
   * outstanding gets none; and no other receipt line fulfils it.
   */
  lemma {:induction false} SeedsPerLine(db: Db, g: nat, ls: Table<PurchaseOrderLine>, l: Entry<PurchaseOrderLine>)
    requires Ascending(ls) && l in ls
    ensures var outstanding := OutstandingForGrv(db.grvs, db.grvLines, l);
      && (outstanding > 0 ==> SeedFor(g, l, outstanding) in Seeds(db, g, ls))
      && (forall x :: x in Seeds(db, g, ls) && x.purchaseOrderLine == Some(l.id) ==>
            outstanding > 0
            && x == GoodsReceiptLine(g, Some(l.id), l.row.product, outstanding, None, l.row.unitPrice))
  {
    var n := |ls| - 1;
    var last := ls[n];
    var prefix := Seeds(db, g, ls[..n]);
    assert forall j :: 0 <= j < n ==> ls[..n][j] == ls[j];
    if last == l {
      SeedsShape(db, g, ls[..n]);
      forall x | x in prefix ensures x.purchaseOrderLine != Some(l.id) {
        var j :| 0 <= j < n && ls[..n][j].id == x.purchaseOrderLine.value;
        assert ls[j].id < ls[n].id;
      }
    } else {
      var k :| 0 <= k < |ls| && ls[k] == l;
      assert k < n && ls[..n][k] == l;
      assert ls[k].id < ls[n].id;
      SeedsPerLine(db, g, ls[..n], l);
    }
  }

  /** No two receipt lines of `s` fulfil the same order line. */
  predicate DistinctOrderLines(s: seq<GoodsReceiptLine>) {
    forall i, j :: 0 <= i < j < |s| ==> s[i].purchaseOrderLine != s[j].purchaseOrderLine
  }

  /** No two seeded receipt lines fulfil the same order line. */
  lemma {:induction false} SeedsDistinctLines(db: Db, g: nat, ls: Table<PurchaseOrderLine>)
    requires Ascending(ls)
    ensures DistinctOrderLines(Seeds(db, g, ls))
  {
    if ls != [] {
      var n := |ls| - 1;
      var prefix := Seeds(db, g, ls[..n]);
      var outstanding := OutstandingForGrv(db.grvs, db.grvLines, ls[n]);
      var tail := if outstanding > 0 then [SeedFor(g, ls[n], outstanding)] else [];
      var s := Seeds(db, g, ls);
      assert s == prefix + tail;
      assert Ascending(ls[..n]);
      SeedsDistinctLines(db, g, ls[..n]);
      SeedsShape(db, g, ls[..n]);
      forall i, j | 0 <= i < j < |s| ensures s[i].purchaseOrderLine != s[j].purchaseOrderLine {
        if j >= |prefix| {
          assert s[j] == tail[0] && s[i] == prefix[i];
          assert s[i] in prefix;
          var m :| 0 <= m < n && ls[..n][m].id == s[i].purchaseOrderLine.value;
          assert ls[..n][m] == ls[m] && ls[m].id < ls[n].id;
          assert s[j].purchaseOrderLine == Some(ls[n].id);
        } else {
          assert s[i] == prefix[i] && s[j] == prefix[j];
        }
      }
    }
  }

  /**
   * Closing receipt `g` makes exactly one batch for each of its lines, and
   * that batch copies the line's product, quantity and expiry date into the
   * receipt's warehouse.
   */
  lemma ClosureBatchPerLine(db: Db, g: nat, warehouse: nat, k: nat)
    requires Keyed(db) && ExpiriesSet(db.grvLines, g) && Unbatched(db, g)
    requires k < |db.grvLines| && db.grvLines[k].row.goodsReceipt == g
    ensures db.grvLines[k].row.expiryDate.Some?
    ensures var d := WithBatches(db, g, warehouse);
      var line := db.grvLines[k];
      && (exists j :: 0 <= j < |d.batches| && d.batches[j].row == BatchFor(line, warehouse))
      && (forall j :: 0 <= j < |d.batches| && d.batches[j].row.goodsReceiptLine == Some(line.id) ==>
            d.batches[j].row == BatchFor(line, warehouse))
      && (forall j, j' :: 0 <= j < j' < |d.batches| && d.batches[j].row.goodsReceiptLine == Some(line.id) ==>
            d.batches[j'].row.goodsReceiptLine != Some(line.id))
  {
    var d := WithBatches(db, g, warehouse);
    var line := db.grvLines[k];
    var lines := LinesOf(db.grvLines, g);
    var bs := ClosureBatches(db.grvLines, g, warehouse);
    FilterKeys(db.grvLines, (e: Entry<GoodsReceiptLine>) => e.row.goodsReceipt == g, db.nextGrvLine);
    assert line in lines;
    var m :| 0 <= m < |lines| && lines[m] == line;
    assert d.batches[|db.batches| + m].row == bs[m];
    forall j | 0 <= j < |d.batches| && d.batches[j].row.goodsReceiptLine == Some(line.id)
      ensures j == |db.batches| + m
    {
      var m' := j - |db.batches|;
      assert d.batches[j].row == bs[m'];
      assert lines[m'] in lines;
      assert lines[m'].id == line.id;
    }
  }

  /** Every batch a closure makes comes from a line of the closed receipt, in the receipt's warehouse. */
  lemma ClosureBatchesFromLines(db: Db, g: nat, warehouse: nat, j: nat)
    requires ExpiriesSet(db.grvLines, g)
    requires |db.batches| <= j < |WithBatches(db, g, warehouse).batches|
    ensures var d := WithBatches(db, g, warehouse);
      exists k :: 0 <= k < |db.grvLines| && db.grvLines[k].row.goodsReceipt == g
        && d.batches[j] == Entry(db.nextBatch + (j - |db.batches|), BatchFor(db.grvLines[k], warehouse))
  {
    var lines := LinesOf(db.grvLines, g);
    var m := j - |db.batches|;
    assert lines[m] in lines;
    var k :| 0 <= k < |db.grvLines| && db.grvLines[k] == lines[m];
  }

  /** The closure makes as many batches as the receipt has lines and changes nothing else. */
  lemma ClosureBatchCount(db: Db, g: nat, warehouse: nat)
    requires ExpiriesSet(db.grvLines, g)
    ensures var d := WithBatches(db, g, warehouse);
      && |d.batches| == |db.batches| + |LinesOf(db.grvLines, g)|
      && d.batches[..|db.batches|] == db.batches
      && d.nextBatch == db.nextBatch + |LinesOf(db.grvLines, g)|
  {
    var d := WithBatches(db, g, warehouse);
    assert d.batches[..|db.batches|] == db.batches;
  }

  /**
   * The automatic reception of order `po`: only that order's status can
   * change, and it ends up received exactly when it already was, or when it
   * was submitted and every one of its lines is fully received.
   */
  lemma ReceiveOrderOutcome(db: Db, po: nat, id: nat)
    requires Ascending(db.pos)
    ensures var d := ReceiveOrder(db, po);
      && (id != po ==> Get(d.pos, id) == Get(db.pos, id))
      && (Get(db.pos, po).None? ==> d == db)
      && (Get(db.pos, po).Some? ==>
            var before := Get(db.pos, po).value;
            && Get(d.pos, po).Some?
            && Get(d.pos, po).value.(status := before.status) == before
            && (Get(d.pos, po).value.status == PoStatus.Received <==>
                  before.status == PoStatus.Received
                  || (before.status == PoStatus.Submitted && IsFullyReceived(db.poLines, db.grvs, db.grvLines, po))))
  {
    var p := Get(db.pos, po);
    if p.Some? {
      PoAcceptsExactly(p.value.status, PoStatus.Received);
      GetPut(db.pos, po, p.value.(status := PoStatus.Received), id);
      GetPut(db.pos, po, p.value.(status := PoStatus.Received), po);
    }
  }

  /**
   * The closure of a receipt raises exactly when its order is fully received
   * but still in draft or cancelled; making the batches does not change
   * whether the order is fully received.
   */
  lemma ClosureRefusedWhen(db: Db, g: nat, grv: GoodsReceipt)
    requires ExpiriesSet(db.grvLines, g)
    ensures !ClosureAccepted(db, g, grv) <==>
      && grv.purchaseOrder.Some?
      && Get(db.pos, grv.purchaseOrder.value).Some?
      && IsFullyReceived(db.poLines, db.grvs, db.grvLines, grv.purchaseOrder.value)
      && Get(db.pos, grv.purchaseOrder.value).value.status in {PoStatus.Draft, PoStatus.Cancelled}
  {
    if grv.purchaseOrder.Some? && Get(db.pos, grv.purchaseOrder.value).Some? {
      PoAcceptsExactly(Get(db.pos, grv.purchaseOrder.value).value.status, PoStatus.Received);
    }
  }
}
