/** The suppliers table: listing by name, unvalidated add and update, and the guard that keeps
    a supplier while products still refer to it. A missing row is reported as no row, never as
    an error. */
module SupplierModel {
  import opened Wrappers
  import opened Db
  import Text
  import Seqs

  /** The request body of an add or update; a field that was not sent is None and is stored as NULL. */
  datatype SupplierInput = SupplierInput(
    name: Option<string>, contactPerson: Option<string>, phone: Option<string>,
    email: Option<string>, address: Option<string>)

  const InUse := "Cannot delete supplier with associated products"

  /** The row stored for `s` under `id`: every field exactly as sent. */
  function RowFor(id: int, s: SupplierInput): (row: Supplier)
    ensures row.id == id && row.name == s.name && row.contactPerson == s.contactPerson
    ensures row.phone == s.phone && row.email == s.email && row.address == s.address
  {
    Supplier(id, s.name, s.contactPerson, s.phone, s.email, s.address)
  }

  /** The products whose supplier is `id`: what the delete guard counts. */
  function Users(products: map<int, Product>, id: int): set<int> {
    set pid | pid in products && products[pid].supplierId == id
  }

  lemma UsersNonEmpty(products: map<int, Product>, id: int)
    ensures |Users(products, id)| > 0 <==> exists pid :: pid in products && products[pid].supplierId == id
  {
    if exists pid :: pid in products && products[pid].supplierId == id {
      var pid :| pid in products && products[pid].supplierId == id;
      assert pid in Users(products, id);
    } else {
      assert Users(products, id) == {};
    }
  }

  /** `deleteSupplier` before the delete: refused while any product refers to the supplier;
      otherwise the row that goes, or None when there is none. */
  function DeleteDecision(products: map<int, Product>, suppliers: map<int, Supplier>, id: int): (r: Result<Option<Supplier>, string>)
    ensures r.Err? <==> exists pid :: pid in products && products[pid].supplierId == id
    ensures r.Err? ==> r.error == InUse
    ensures r.Ok? ==> (r.value.Some? <==> id in suppliers)
    ensures r.Ok? && r.value.Some? ==> r.value.value == suppliers[id]
  {
    UsersNonEmpty(products, id);
    if |Users(products, id)| > 0 then Err(InUse)
    else Ok(if id in suppliers then Some(suppliers[id]) else None)
  }

  /** `addSupplier`: no field is checked; the row is inserted under the next serial id. */
  method AddSupplier(db: Database, s: SupplierInput) returns (row: Supplier)
    requires db.Valid()
    modifies db
    ensures db.Valid()
    ensures row == RowFor(old(db.nextSupplierId), s)
    ensures db.suppliers == old(db.suppliers)[row.id := row]
    ensures db.nextSupplierId == old(db.nextSupplierId) + 1
    ensures db.products == old(db.products) && db.categories == old(db.categories)
    ensures db.sales == old(db.sales) && db.saleItems == old(db.saleItems) && db.logs == old(db.logs)
    ensures db.nextProductId == old(db.nextProductId) && db.nextCategoryId == old(db.nextCategoryId)
    ensures db.nextSaleId == old(db.nextSaleId)
  {
    // the row goes in under the next serial id and is returned
    row := RowFor(db.nextSupplierId, s);
    db.suppliers := db.suppliers[row.id := row];
    db.nextSupplierId := db.nextSupplierId + 1;
  }

  /** `updateSupplier`: no field is checked; a missing id updates nothing and returns no row. */
  method UpdateSupplier(db: Database, id: int, s: SupplierInput) returns (r: Option<Supplier>)
    requires db.Valid()
    modifies db
    ensures db.Valid()
    ensures id !in old(db.suppliers) ==> r == None && db.suppliers == old(db.suppliers)
    ensures id in old(db.suppliers) ==> r == Some(RowFor(id, s)) && db.suppliers == old(db.suppliers)[id := r.value]
    ensures db.products == old(db.products) && db.categories == old(db.categories)
    ensures db.sales == old(db.sales) && db.saleItems == old(db.saleItems) && db.logs == old(db.logs)
    ensures db.nextProductId == old(db.nextProductId) && db.nextCategoryId == old(db.nextCategoryId)
    ensures db.nextSupplierId == old(db.nextSupplierId) && db.nextSaleId == old(db.nextSaleId)
  {
    if id !in db.suppliers {
      return None;
    }
    // every field is replaced and the new row is returned
    var row := RowFor(id, s);
    db.suppliers := db.suppliers[id := row];
    return Some(row);
  }

  /** `deleteSupplier`: on success the row (if any) is removed; on refusal nothing changes. */
  method DeleteSupplier(db: Database, id: int) returns (r: Result<Option<Supplier>, string>)
    requires db.Valid()
    modifies db
    ensures db.Valid()
    ensures r == DeleteDecision(old(db.products), old(db.suppliers), id)
    ensures r.Ok? ==> db.suppliers == old(db.suppliers) - {id}
    ensures r.Err? ==> db.suppliers == old(db.suppliers)
    ensures db.products == old(db.products) && db.categories == old(db.categories)
    ensures db.sales == old(db.sales) && db.saleItems == old(db.saleItems) && db.logs == old(db.logs)
    ensures db.nextProductId == old(db.nextProductId) && db.nextCategoryId == old(db.nextCategoryId)
    ensures db.nextSupplierId == old(db.nextSupplierId) && db.nextSaleId == old(db.nextSaleId)
  {
    r := DeleteDecision(db.products, db.suppliers, id);
    if r.Ok? {
      // the row, if any, goes
      db.suppliers := db.suppliers - {id};
    }
  }

  /** A supplier that a product refers to is in the table and survives a delete attempt, and
      after any delete that succeeds every product still names an existing supplier. */
  lemma DeleteKeepsReferences(products: map<int, Product>, categories: map<int, Category>,
                              suppliers: map<int, Supplier>, id: int)
    requires ReferencesValid(products, categories, suppliers)
    ensures (exists pid :: pid in products && products[pid].supplierId == id) ==> DeleteDecision(products, suppliers, id) == Err(InUse)
    ensures (exists pid :: pid in products && products[pid].supplierId == id) ==> id in suppliers
    ensures DeleteDecision(products, suppliers, id).Ok? ==> ReferencesValid(products, categories, suppliers - {id})
  {
    if DeleteDecision(products, suppliers, id).Ok? {
      forall pid | pid in products ensures products[pid].supplierId in suppliers - {id} {
        assert products[pid].supplierId != id;
      }
    }
  }

  // ---------------------------------------------------------------------------------------
  // Listing

  /** The listing order: by supplier name, ascending, with missing names last as PostgreSQL sorts NULLs. */
  predicate ByName(a: Supplier, b: Supplier) {
    match (a.name, b.name)
    case (Some(x), Some(y)) => Text.StrLe(x, y)
    case (Some(_), None) => true
    case (None, Some(_)) => false
    case (None, None) => true
  }

  lemma ByNameIsPreorder()
    ensures Seqs.Total(ByName) && Seqs.Transitive(ByName)
  {
    forall a: Supplier, b: Supplier ensures ByName(a, b) || ByName(b, a) {
      if a.name.Some? && b.name.Some? {
        Text.StrLeTotal(a.name.value, b.name.value);
      }
    }
    forall a: Supplier, b: Supplier, c: Supplier | ByName(a, b) && ByName(b, c) ensures ByName(a, c) {
      if a.name.Some? && b.name.Some? && c.name.Some? {
        Text.StrLeTransitive(a.name.value, b.name.value, c.name.value);
      }
    }
  }

  /** `getAllSuppliers`: the rows of the scan ordered by name. */
  function GetAllSuppliers(scan: seq<Supplier>): (r: seq<Supplier>)
    ensures multiset(r) == multiset(scan)
    ensures Seqs.SortedBy(r, ByName)
  {
    ByNameIsPreorder();
    Seqs.SortBySorted(scan, ByName);
    Seqs.SortBy(scan, ByName)
  }

  /** In the listing every named supplier comes before every supplier without a name. */
  lemma NamedFirst(scan: seq<Supplier>, i: int, j: int)
    requires 0 <= i < |GetAllSuppliers(scan)| && 0 <= j < |GetAllSuppliers(scan)|
    requires GetAllSuppliers(scan)[i].name.Some? && GetAllSuppliers(scan)[j].name.None?
    ensures i < j
  {
  }
}
