/**
 * The supplier catalogue: which supplier provides which product, at what cost
 * and lead time. A (supplier, product) pair may appear at most once; the form
 * that creates and edits catalogue rows checks this before saving, and the
 * database's unique constraint backs it up.
 */
module Suppliers {
  import opened Wrappers
  import opened Tables

  /** A `SupplierProduct` row; prices in hundredths. */
  datatype SupplierProduct = SupplierProduct(
    supplier: nat,
    product: nat,
    supplierSku: string,
    costPrice: int,
    leadTimeDays: nat,
    isPrimary: bool)

  datatype SupplierError =
    | AlreadyProvided    // the form's own check
    | ProductRequired    // the product field is required on create
    | UniqueViolation    // the database's unique constraint
    | NotFound

  /** No two rows share a (supplier, product) pair. */
  predicate PairsUnique(rows: Table<SupplierProduct>) {
    forall i, j :: 0 <= i < j < |rows| ==>
      rows[i].row.supplier != rows[j].row.supplier || rows[i].row.product != rows[j].row.product
  }

  /** Some row other than `except` already pairs `supplier` with `product`. */
  predicate Provided(rows: Table<SupplierProduct>, supplier: nat, product: nat, except: Option<nat>) {
    exists i :: 0 <= i < |rows| && rows[i].row.supplier == supplier && rows[i].row.product == product
      && Some(rows[i].id) != except
  }

  /**
   * `SupplierProductForm.clean`: with both a supplier id (a falsy 0 counts as
   * none) and a product, the pair must not be provided by another row; on
   * create (`instance` is `None`) every row counts, on edit every row but the
   * one being edited.
   */
  function Clean(rows: Table<SupplierProduct>, supplier: nat, product: Option<nat>, instance: Option<nat>): (r: Result<(), SupplierError>)
    ensures r.Failure? ==> r.error == AlreadyProvided
    ensures supplier == 0 || product.None? ==> r.Success?
  {
    if supplier == 0 || product.None? then Success(())
    else if Provided(rows, supplier, product.value, instance) then Failure(AlreadyProvided)
    else Success(())
  }

  /** Inserting a row keeps pairs unique exactly when no stored row has its pair. */
  lemma InsertKeepsPairsUnique(rows: Table<SupplierProduct>, next: nat, row: SupplierProduct)
    requires WellKeyed(rows, next) && PairsUnique(rows)
    ensures PairsUnique(Insert(rows, next, row)) <==> !Provided(rows, row.supplier, row.product, None)
  {
    var u := Insert(rows, next, row);
    assert forall i :: 0 <= i < |rows| ==> u[i] == rows[i];
    assert u[|rows|].row == row;
    if Provided(rows, row.supplier, row.product, None) {
      var i :| 0 <= i < |rows| && rows[i].row.supplier == row.supplier && rows[i].row.product == row.product;
      assert u[i].row.supplier == u[|rows|].row.supplier && u[i].row.product == u[|rows|].row.product;
    }
  }

  /** Overwriting row `pk` keeps pairs unique exactly when no other row has the new pair. */
  lemma PutKeepsPairsUnique(rows: Table<SupplierProduct>, pk: nat, row: SupplierProduct)
    requires Ascending(rows) && PairsUnique(rows) && pk in Ids(rows)
    ensures PairsUnique(Put(rows, pk, row)) <==> !Provided(rows, row.supplier, row.product, Some(pk))
  {
    if Provided(rows, row.supplier, row.product, Some(pk)) {
      PutCollides(rows, pk, row);
    } else {
      PutFresh(rows, pk, row);
    }
  }

  /** A pair another row already has collides with it once written over row `pk`. */
  lemma PutCollides(rows: Table<SupplierProduct>, pk: nat, row: SupplierProduct)
    requires pk in Ids(rows) && Provided(rows, row.supplier, row.product, Some(pk))
    ensures !PairsUnique(Put(rows, pk, row))
  {
    var u := Put(rows, pk, row);
    var m :| 0 <= m < |rows| && rows[m].id == pk;
    var i :| 0 <= i < |rows| && rows[i].row.supplier == row.supplier && rows[i].row.product == row.product
      && Some(rows[i].id) != Some(pk);
    assert u[i].row == rows[i].row && u[m].row == row;
    assert i != m;
    if i < m {
      Clash(u, i, m);
    } else {
      Clash(u, m, i);
    }
  }

  /** Two rows with the same pair break uniqueness. */
  lemma Clash(rows: Table<SupplierProduct>, i: nat, j: nat)
    requires i < j < |rows|
    requires rows[i].row.supplier == rows[j].row.supplier && rows[i].row.product == rows[j].row.product
    ensures !PairsUnique(rows)
  {
  }

  /** A pair no other row has keeps pairs unique when written over row `pk`. */
  lemma PutFresh(rows: Table<SupplierProduct>, pk: nat, row: SupplierProduct)
    requires Ascending(rows) && PairsUnique(rows) && !Provided(rows, row.supplier, row.product, Some(pk))
    ensures PairsUnique(Put(rows, pk, row))
  {
    var u := Put(rows, pk, row);
    assert forall i :: 0 <= i < |rows| && rows[i].id != pk ==> u[i] == rows[i];
  }

  /**
   * With a supplier id, the create form's check is exactly the unique
   * constraint: it accepts a row precisely when inserting it keeps pairs unique.
   */
  lemma CreateCleanIff(rows: Table<SupplierProduct>, next: nat, row: SupplierProduct)
    requires WellKeyed(rows, next) && PairsUnique(rows) && row.supplier != 0
    ensures Clean(rows, row.supplier, Some(row.product), None).Success? <==> PairsUnique(Insert(rows, next, row))
  {
    InsertKeepsPairsUnique(rows, next, row);
  }

  /**
   * With a supplier id, the edit form's check is exactly the unique
   * constraint: it accepts a row precisely when overwriting keeps pairs unique.
   */
  lemma UpdateCleanIff(rows: Table<SupplierProduct>, pk: nat, row: SupplierProduct)
    requires Ascending(rows) && PairsUnique(rows) && pk in Ids(rows) && row.supplier != 0
    ensures Clean(rows, row.supplier, Some(row.product), Some(pk)).Success? <==> PairsUnique(Put(rows, pk, row))
  {
    PutKeepsPairsUnique(rows, pk, row);
  }

  /** Re-saving a row with its own pair never conflicts with itself. */
  lemma OwnPairAccepted(rows: Table<SupplierProduct>, pk: nat, row: SupplierProduct)
    requires Ascending(rows) && PairsUnique(rows) && Get(rows, pk) == Some(row)
    ensures Clean(rows, row.supplier, Some(row.product), Some(pk)).Success?
  {
    if row.supplier != 0 {
      var m :| 0 <= m < |rows| && rows[m] == Entry(pk, row);
    }
  }

  /** Overwriting a stored row with a pair no other row has keeps the catalogue well formed and the row readable. */
  lemma UpdateKeepsCatalog(rows: Table<SupplierProduct>, next: nat, pk: nat, row: SupplierProduct)
    requires WellKeyed(rows, next) && PairsUnique(rows) && Get(rows, pk).Some?
    requires !Provided(rows, row.supplier, row.product, Some(pk))
    ensures WellKeyed(Put(rows, pk, row), next) && PairsUnique(Put(rows, pk, row))
    ensures Get(Put(rows, pk, row), pk) == Some(row)
  {
    assert Entry(pk, Get(rows, pk).value) in rows;
    PutKeys(rows, pk, row, next);
    PutKeepsPairsUnique(rows, pk, row);
    GetPut(rows, pk, row, pk);
  }

  /** The `SupplierProduct` table with its auto-increment counter. */
  class Catalog {
    var rows: Table<SupplierProduct>
    var next: nat

    ghost predicate Valid()
      reads this
    {
      WellKeyed(rows, next) && PairsUnique(rows)
    }

    constructor ()
      ensures Valid() && rows == [] && next == 1
    {
      rows := [];
      next := 1;
    }

    /**
     * `SupplierProductCreateView`: the form's product (required), cost price
     * and lead time; the supplier comes from the URL. The form's check runs
     * first; the database constraint rejects whatever it let through.
     */
    method Create(supplier: nat, product: Option<nat>, costPrice: int, leadTimeDays: nat) returns (r: Result<nat, SupplierError>)
      requires Valid()
      modifies this
      ensures Valid()
      ensures product.None? ==> r == Failure(ProductRequired) && rows == old(rows) && next == old(next)
      ensures product.Some? ==> (r.Success? <==> !Provided(old(rows), supplier, product.value, None))
      ensures product.Some? && r.Failure? ==> r.error == if supplier != 0 then AlreadyProvided else UniqueViolation
      ensures r.Failure? ==> rows == old(rows) && next == old(next)
      ensures r.Success? ==>
        && r.value == old(next)
        && rows == Insert(old(rows), old(next), SupplierProduct(supplier, product.value, "", costPrice, leadTimeDays, false))
        && next == old(next) + 1
    {
      if product.None? {
        return Failure(ProductRequired);
      }
      var checked := Clean(rows, supplier, product, None);
      if checked.Failure? {
        return Failure(checked.error);
      }
      var row := SupplierProduct(supplier, product.value, "", costPrice, leadTimeDays, false);
      if Provided(rows, supplier, product.value, None) {
        return Failure(UniqueViolation);
      }
      InsertKeepsPairsUnique(rows, next, row);
      rows := Insert(rows, next, row);
      r := Success(next);
      next := next + 1;
    }

    /**
     * `SupplierProductUpdateView`: the product field is disabled, so the row
     * keeps its product; the supplier comes from the URL, cost price and lead
     * time from the form, and the fields the form does not show are kept.
     */
    method Update(pk: nat, supplier: nat, costPrice: int, leadTimeDays: nat) returns (r: Result<nat, SupplierError>)
      requires Valid()
      modifies this
      ensures Valid() && next == old(next)
      ensures Get(old(rows), pk).None? ==> r == Failure(NotFound) && rows == old(rows)
      ensures Get(old(rows), pk).Some? ==>
        && (r.Success? <==> !Provided(old(rows), supplier, Get(old(rows), pk).value.product, Some(pk)))
        && (r.Failure? ==> r.error == if supplier != 0 then AlreadyProvided else UniqueViolation)
      ensures r.Failure? ==> rows == old(rows)
      ensures r.Success? ==>
        var stored := Get(old(rows), pk).value;
        && r.value == pk
        && rows == Put(old(rows), pk, stored.(supplier := supplier, costPrice := costPrice, leadTimeDays := leadTimeDays))
        && Get(rows, pk).value.product == stored.product
    {
      var stored := Get(rows, pk);
      if stored.None? {
        return Failure(NotFound);
      }
      var checked := Clean(rows, supplier, Some(stored.value.product), Some(pk));
      if checked.Failure? {
        return Failure(checked.error);
      }
      if Provided(rows, supplier, stored.value.product, Some(pk)) {
        return Failure(UniqueViolation);
      }
      var row := stored.value.(supplier := supplier, costPrice := costPrice, leadTimeDays := leadTimeDays);
      UpdateKeepsCatalog(rows, next, pk, row);
      rows := Put(rows, pk, row);
      r := Success(pk);
    }
  }
}
