/** The relational store the backend talks to, as in-memory tables: products, categories and
    suppliers keyed by id; sales, sale items and inventory-log entries as append-only sequences.
    Serial ids are drawn from per-table counters. */
module Db {
  import opened Wrappers

  /** A row of `products`. */
  datatype Product = Product(
    id: int,
    code: string,
    name: string,
    categoryId: int,
    supplierId: int,
    unitPrice: int,          // cents
    stock: int,              // quantity_in_stock
    reorderLevel: int,
    size: Option<string>)    // size_specification, NULL as None

  /** A row of `categories`; a description that was not sent is stored as NULL (None). */
  datatype Category = Category(id: int, name: string, description: Option<string>)

  /** A row of `suppliers`. Nothing is validated on insert, so every column may be NULL (None). */
  datatype Supplier = Supplier(
    id: int, name: Option<string>, contactPerson: Option<string>, phone: Option<string>,
    email: Option<string>, address: Option<string>)

  /** A row of `sales`: the header of one checkout. */
  datatype Sale = Sale(
    id: int,
    transactionNumber: string,
    saleDate: int,           // a timestamp
    subtotal: int,
    tax: int,
    total: int,
    paymentMethod: string,
    userId: int)

  /** A row of `sale_items`. */
  datatype SaleItem = SaleItem(
    saleId: int, productId: int, productCode: string, productName: string,
    quantity: int, unitPrice: int, subtotal: int)

  /** A row of `inventory_logs`. */
  datatype LogEntry = LogEntry(
    productId: int, productCode: string, changeAmount: int, reason: string,
    referenceType: string, referenceId: int, changedBy: int)

  class Database {
    var products: map<int, Product>
    var categories: map<int, Category>
    var suppliers: map<int, Supplier>
    var sales: seq<Sale>
    var saleItems: seq<SaleItem>
    var logs: seq<LogEntry>
    var nextProductId: int
    var nextCategoryId: int
    var nextSupplierId: int
    var nextSaleId: int

    /** Every keyed row carries its own key, and every id in use was drawn before its counter. */
    ghost predicate Valid()
      reads this
    {
      && (forall id :: id in products ==> products[id].id == id && id < nextProductId)
      && (forall id :: id in categories ==> categories[id].id == id && id < nextCategoryId)
      && (forall id :: id in suppliers ==> suppliers[id].id == id && id < nextSupplierId)
      && (forall i :: 0 <= i < |sales| ==> sales[i].id < nextSaleId)
    }

    constructor ()
      ensures Valid()
      ensures products == map[] && categories == map[] && suppliers == map[]
      ensures sales == [] && saleItems == [] && logs == []
    {
      products, categories, suppliers := map[], map[], map[];
      sales, saleItems, logs := [], [], [];
      nextProductId, nextCategoryId, nextSupplierId, nextSaleId := 1, 1, 1, 1;
    }
  }

  /** Every product names an existing category and an existing supplier. */
  ghost predicate ReferencesValid(
    products: map<int, Product>, categories: map<int, Category>, suppliers: map<int, Supplier>)
  {
    forall id :: id in products ==>
      products[id].categoryId in categories && products[id].supplierId in suppliers
  }

  /** No two products share a product code. */
  ghost predicate CodesUnique(products: map<int, Product>) {
    forall a, b :: a in products && b in products && products[a].code == products[b].code ==> a == b
  }

  /** Every product that appears in a sale item still exists. */
  ghost predicate SoldProductsExist(saleItems: seq<SaleItem>, products: map<int, Product>) {
    forall i :: 0 <= i < |saleItems| ==> saleItems[i].productId in products
  }
}
