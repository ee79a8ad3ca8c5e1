/** The checkout transaction (`createSale`) and the sales listing (`getSales`) of the backend's
    sales model, over the in-memory tables of `Db`. */
module SalesModel {
  import opened Wrappers
  import opened Db
  import Text
  import Seqs

  /** One element of `items` as `createSale` receives it; the empty string stands for an
      absent `product_code` or `product_name` (both are falsy). */
  datatype SaleLine = SaleLine(
    productId: int, quantity: int, unitPrice: int, productCode: string, productName: string)

  /** The stock re-check of one line: the product row exists and its stock is not below the
      requested quantity. The quantity itself is not checked. */
  predicate LineOk(products: map<int, Product>, line: SaleLine) {
    line.productId in products && !(products[line.productId].stock < line.quantity)
  }

  /** The stock decrement for one line: the product's stock goes down by the line's quantity. */
  function Decrement(products: map<int, Product>, line: SaleLine): map<int, Product>
    requires line.productId in products
  {
    var row := products[line.productId];
    products[line.productId := row.(stock := row.stock - line.quantity)]
  }

  /** Every line names a row of `products`. */
  predicate AllNamed(lines: seq<SaleLine>, products: map<int, Product>) {
    forall i :: 0 <= i < |lines| ==> lines[i].productId in products
  }

  /** The lines processed in cart order, each checked against the stock as already decremented
      by the lines before it: the final product table, or the index of the first line that fails. */
  function Apply(products: map<int, Product>, lines: seq<SaleLine>): (r: Result<map<int, Product>, nat>)
    ensures r.Err? ==> r.error < |lines|
    ensures r.Ok? ==> r.value.Keys == products.Keys && AllNamed(lines, products)
    decreases |lines|
  {
    if lines == [] then Ok(products)
    else
      match Apply(products, lines[..|lines| - 1])
      case Err(k) => Err(k)
      case Ok(q) =>
        var line := lines[|lines| - 1];
        if LineOk(q, line) then Ok(Decrement(q, line)) else Err(|lines| - 1)
  }

  /** The summed quantity of the lines naming `id`. */
  function QtyFor(lines: seq<SaleLine>, id: int): int
    decreases |lines|
  {
    if lines == [] then 0
    else QtyFor(lines[..|lines| - 1], id) + (if lines[|lines| - 1].productId == id then lines[|lines| - 1].quantity else 0)
  }

  /** The code written to a sale item or log entry: the line's own, else the product row's. */
  function CodeOf(line: SaleLine, products: map<int, Product>): string
    requires line.productId in products
  {
    if line.productCode != "" then line.productCode else products[line.productId].code
  }

  function NameOf(line: SaleLine, products: map<int, Product>): string
    requires line.productId in products
  {
    if line.productName != "" then line.productName else products[line.productId].name
  }

  /** The `sale_items` row written for one line. */
  function ItemOf(saleId: int, line: SaleLine, products: map<int, Product>): SaleItem
    requires line.productId in products
  {
    SaleItem(saleId, line.productId, CodeOf(line, products), NameOf(line, products),
             line.quantity, line.unitPrice, line.quantity * line.unitPrice)
  }

  /** The `inventory_logs` row written for one line. */
  function LogOf(saleId: int, line: SaleLine, products: map<int, Product>, userId: int): LogEntry
    requires line.productId in products
  {
    LogEntry(line.productId, CodeOf(line, products), -line.quantity, "Sale transaction", "sale", saleId, userId)
  }

  function ItemsFor(saleId: int, lines: seq<SaleLine>, products: map<int, Product>): (r: seq<SaleItem>)
    requires AllNamed(lines, products)
    ensures |r| == |lines|
    ensures forall i :: 0 <= i < |lines| ==> r[i] == ItemOf(saleId, lines[i], products)
  {
    seq(|lines|, i requires 0 <= i < |lines| => ItemOf(saleId, lines[i], products))
  }

  function LogsFor(saleId: int, lines: seq<SaleLine>, products: map<int, Product>, userId: int): (r: seq<LogEntry>)
    requires AllNamed(lines, products)
    ensures |r| == |lines|
    ensures forall i :: 0 <= i < |lines| ==> r[i] == LogOf(saleId, lines[i], products, userId)
  {
    seq(|lines|, i requires 0 <= i < |lines| => LogOf(saleId, lines[i], products, userId))
  }

  /** The message of the error thrown for a failing line. */
  function StockMessage(line: SaleLine): string {
    "Insufficient stock for product ID " + Text.IntToString(line.productId)
  }

  /** On success each product's stock has dropped by exactly the summed quantity of the lines
      naming it; every other field of every row, and every product not in the cart, is unchanged. */
  lemma {:induction false} ApplyStock(products: map<int, Product>, lines: seq<SaleLine>)
    requires Apply(products, lines).Ok?
    ensures forall id :: id in products ==>
      Apply(products, lines).value[id] == products[id].(stock := products[id].stock - QtyFor(lines, id))
    decreases |lines|
  {
    if lines != [] {
      ApplyStock(products, lines[..|lines| - 1]);
    }
  }

  /** A product that no line names keeps its row. */
  lemma ApplyUntouched(products: map<int, Product>, lines: seq<SaleLine>, id: int)
    requires Apply(products, lines).Ok? && id in products
    requires forall i :: 0 <= i < |lines| ==> lines[i].productId != id
    ensures Apply(products, lines).value[id] == products[id]
  {
    QtyForUnnamed(lines, id);
    ApplyStock(products, lines);
  }

  lemma {:induction false} QtyForUnnamed(lines: seq<SaleLine>, id: int)
    requires forall i :: 0 <= i < |lines| ==> lines[i].productId != id
    ensures QtyFor(lines, id) == 0
    decreases |lines|
  {
    if lines != [] {
      QtyForUnnamed(lines[..|lines| - 1], id);
    }
  }

  /** A committed sale leaves every product it names with non-negative stock, whatever the
      sign of the quantities and whatever the stock was before. */
  lemma {:induction false} ApplyNamedNonNegative(products: map<int, Product>, lines: seq<SaleLine>)
    requires Apply(products, lines).Ok?
    ensures forall i :: 0 <= i < |lines| ==> Apply(products, lines).value[lines[i].productId].stock >= 0
    decreases |lines|
  {
    if lines != [] {
      var init := lines[..|lines| - 1];
      ApplyNamedNonNegative(products, init);
      var q := Apply(products, init).value;
      var last := lines[|lines| - 1];
      forall i | 0 <= i < |lines|
        ensures Apply(products, lines).value[lines[i].productId].stock >= 0
      {
        if lines[i].productId != last.productId {
          assert lines[i] == init[i];
        }
      }
    }
  }

  /** Hence a committed sale never leaves any stock below zero when none was before. */
  lemma ApplyKeepsStockNonNegative(products: map<int, Product>, lines: seq<SaleLine>)
    requires Apply(products, lines).Ok?
    requires forall id :: id in products ==> products[id].stock >= 0
    ensures forall id :: id in Apply(products, lines).value ==> Apply(products, lines).value[id].stock >= 0
  {
    var q := Apply(products, lines).value;
    ApplyNamedNonNegative(products, lines);
    forall id | id in q ensures q[id].stock >= 0 {
      if forall i :: 0 <= i < |lines| ==> lines[i].productId != id {
        ApplyUntouched(products, lines, id);
      }
    }
  }

  /** Once a prefix of the cart has failed, the whole cart fails at the same line. */
  lemma {:induction false} ApplyErrPersists(products: map<int, Product>, lines: seq<SaleLine>, j: nat)
    requires j <= |lines| && Apply(products, lines[..j]).Err?
    ensures Apply(products, lines) == Apply(products, lines[..j])
    decreases |lines| - j
  {
    if j < |lines| {
      assert lines[..j + 1][..j] == lines[..j];
      ApplyErrPersists(products, lines, j + 1);
    } else {
      assert lines[..j] == lines;
    }
  }

  /** The cart fails at line `k` exactly when the lines before `k` all pass and line `k` does
      not: its product is missing or its stock, after the earlier lines, is below its quantity. */
  lemma {:induction false} ApplyFailsAt(products: map<int, Product>, lines: seq<SaleLine>, k: nat)
    ensures Apply(products, lines) == Err(k) <==>
      k < |lines| && Apply(products, lines[..k]).Ok? && !LineOk(Apply(products, lines[..k]).value, lines[k])
    decreases |lines|
  {
    if lines != [] {
      var init := lines[..|lines| - 1];
      if k < |lines| - 1 {
        assert init[..k] == lines[..k] && init[k] == lines[k];
        ApplyFailsAt(products, init, k);
        if Apply(products, lines[..k]).Ok? && !LineOk(Apply(products, lines[..k]).value, lines[k]) {
          assert lines[..k + 1][..k] == lines[..k];
          ApplyErrPersists(products, lines, k + 1);
        }
      } else if k == |lines| - 1 {
        assert init == lines[..k];
      }
    }
  }

  lemma {:induction false} QtyForNonPositive(lines: seq<SaleLine>, id: int)
    requires forall i :: 0 <= i < |lines| ==> lines[i].quantity <= 0
    ensures QtyFor(lines, id) <= 0
    decreases |lines|
  {
    if lines != [] {
      QtyForNonPositive(lines[..|lines| - 1], id);
    }
  }

  /** Zero and negative quantities are never rejected: a cart of such lines over existing
      products with non-negative stock always commits. */
  lemma {:induction false} NonPositiveQuantitiesCommit(products: map<int, Product>, lines: seq<SaleLine>)
    requires AllNamed(lines, products)
    requires forall i :: 0 <= i < |lines| ==> lines[i].quantity <= 0
    requires forall id :: id in products ==> products[id].stock >= 0
    ensures Apply(products, lines).Ok?
    decreases |lines|
  {
    if lines != [] {
      var init := lines[..|lines| - 1];
      NonPositiveQuantitiesCommit(products, init);
      ApplyStock(products, init);
      QtyForNonPositive(init, lines[|lines| - 1].productId);
    }
  }

  /** One more passing line extends a successful prefix by one decrement. */
  lemma ApplyStep(products: map<int, Product>, lines: seq<SaleLine>, i: nat)
    requires i < |lines| && Apply(products, lines[..i]).Ok?
    requires LineOk(Apply(products, lines[..i]).value, lines[i])
    ensures Apply(products, lines[..i + 1]) == Ok(Decrement(Apply(products, lines[..i]).value, lines[i]))
  {
    assert lines[..i + 1][..i] == lines[..i];
  }

  lemma WritesStep(saleId: int, lines: seq<SaleLine>, products: map<int, Product>, userId: int, i: nat)
    requires i < |lines| && AllNamed(lines[..i + 1], products)
    ensures AllNamed(lines[..i], products)
    ensures ItemsFor(saleId, lines[..i + 1], products) == ItemsFor(saleId, lines[..i], products) + [ItemOf(saleId, lines[i], products)]
    ensures LogsFor(saleId, lines[..i + 1], products, userId) == LogsFor(saleId, lines[..i], products, userId) + [LogOf(saleId, lines[i], products, userId)]
  {
    assert forall j :: 0 <= j < i ==> lines[..i][j] == lines[..i + 1][j];
  }

  /** The writes for one line that passed the stock check: insert its sale item, decrement
      the stock, append its log entry. */
  method InsertLine(db: Database, saleId: int, line: SaleLine, userId: int)
    requires line.productId in db.products
    modifies db
    ensures db.saleItems == old(db.saleItems) + [ItemOf(saleId, line, old(db.products))]
    ensures db.products == Decrement(old(db.products), line)
    ensures db.logs == old(db.logs) + [LogOf(saleId, line, old(db.products), userId)]
    ensures db.sales == old(db.sales) && db.categories == old(db.categories) && db.suppliers == old(db.suppliers)
    ensures db.nextProductId == old(db.nextProductId) && db.nextCategoryId == old(db.nextCategoryId)
    ensures db.nextSupplierId == old(db.nextSupplierId) && db.nextSaleId == old(db.nextSaleId)
  {
    var before := db.products;
    // the sale item, with the line's own code and name or else the product row's
    db.saleItems := db.saleItems + [ItemOf(saleId, line, before)];
    // the stock decrement
    db.products := Decrement(before, line);
    // the log entry
    db.logs := db.logs + [LogOf(saleId, line, before, userId)];
  }

  /** The loop of `createSale`: for each line in order, re-check the stock and, if it suffices,
      do that line's writes. Stops at the first failing line, whose index it returns, leaving the
      writes of earlier lines in place for the caller's rollback. */
  method InsertLines(db: Database, saleId: int, lines: seq<SaleLine>, userId: int)
    returns (failedAt: Option<nat>)
    modifies db
    ensures failedAt.None? <==> Apply(old(db.products), lines).Ok?
    ensures failedAt.None? ==>
      && db.products == Apply(old(db.products), lines).value
      && db.saleItems == old(db.saleItems) + ItemsFor(saleId, lines, old(db.products))
      && db.logs == old(db.logs) + LogsFor(saleId, lines, old(db.products), userId)
    ensures failedAt.Some? ==> Apply(old(db.products), lines) == Err(failedAt.value)
    ensures db.sales == old(db.sales) && db.categories == old(db.categories) && db.suppliers == old(db.suppliers)
    ensures db.nextProductId == old(db.nextProductId) && db.nextCategoryId == old(db.nextCategoryId)
    ensures db.nextSupplierId == old(db.nextSupplierId) && db.nextSaleId == old(db.nextSaleId)
  {
    var products0, items0, logs0 := db.products, db.saleItems, db.logs;
    var i := 0;
    assert lines[..0] == [];
    while i < |lines|
      invariant 0 <= i <= |lines|
      invariant Apply(products0, lines[..i]) == Ok(db.products)
      invariant db.saleItems == items0 + ItemsFor(saleId, lines[..i], products0)
      invariant db.logs == logs0 + LogsFor(saleId, lines[..i], products0, userId)
      invariant db.sales == old(db.sales) && db.categories == old(db.categories) && db.suppliers == old(db.suppliers)
      invariant db.nextProductId == old(db.nextProductId) && db.nextCategoryId == old(db.nextCategoryId)
      invariant db.nextSupplierId == old(db.nextSupplierId) && db.nextSaleId == old(db.nextSaleId)
    {
      var line := lines[i];
      // re-read the product's current stock
      if line.productId !in db.products || db.products[line.productId].stock < line.quantity {
        ApplyFailsAt(products0, lines, i);
        return Some(i);
      }
      ghost var before := db.products;
      assert ItemOf(saleId, line, before) == ItemOf(saleId, line, products0)
          && LogOf(saleId, line, before, userId) == LogOf(saleId, line, products0, userId) by {
        ApplyStock(products0, lines[..i]);
      }
      InsertLine(db, saleId, line, userId);
      ApplyStep(products0, lines, i);
      WritesStep(saleId, lines, products0, userId, i);
      i := i + 1;
    }
    assert lines[..i] == lines;
    return None;
  }

  /** `createSale`: inside one transaction, insert the header, then run the lines; if a line fails,
      roll back and rethrow. `transactionNumber` is the value the database's
      `generate_transaction_number()` hands out; the new sale id is drawn from the sales counter. */
  method CreateSale(db: Database, lines: seq<SaleLine>, subtotal: int, tax: int, total: int,
                    saleDate: int, userId: int, transactionNumber: string)
    returns (r: Result<int, string>)
    requires db.Valid()
    modifies db
    ensures db.Valid()
    ensures db.categories == old(db.categories) && db.suppliers == old(db.suppliers)
    ensures db.nextProductId == old(db.nextProductId) && db.nextCategoryId == old(db.nextCategoryId)
    ensures db.nextSupplierId == old(db.nextSupplierId)
    ensures r.Ok? <==> Apply(old(db.products), lines).Ok?
    ensures r.Ok? ==>
      && r.value == old(db.nextSaleId)
      && db.nextSaleId == old(db.nextSaleId) + 1
      && (forall i :: 0 <= i < |old(db.sales)| ==> old(db.sales)[i].id != r.value)
      && db.products == Apply(old(db.products), lines).value
      && db.sales == old(db.sales) + [Sale(r.value, transactionNumber, saleDate, subtotal, tax, total, "Cash", userId)]
      && db.saleItems == old(db.saleItems) + ItemsFor(r.value, lines, old(db.products))
      && db.logs == old(db.logs) + LogsFor(r.value, lines, old(db.products), userId)
    ensures r.Err? ==>
      && r.error == StockMessage(lines[Apply(old(db.products), lines).error])
      && db.products == old(db.products) && db.sales == old(db.sales)
      && db.saleItems == old(db.saleItems) && db.logs == old(db.logs)
      && db.nextSaleId == old(db.nextSaleId)
  {
    // the state at the start of the transaction, which a rollback restores
    var products0, sales0, items0, logs0, nextSale0 := db.products, db.sales, db.saleItems, db.logs, db.nextSaleId;

    // the header goes in first, under the next sale id
    var saleId := db.nextSaleId;
    db.nextSaleId := db.nextSaleId + 1;
    db.sales := db.sales + [Sale(saleId, transactionNumber, saleDate, subtotal, tax, total, "Cash", userId)];

    var failedAt := InsertLines(db, saleId, lines, userId);
    if failedAt.Some? {
      // roll back
      db.products, db.sales, db.saleItems, db.logs, db.nextSaleId := products0, sales0, items0, logs0, nextSale0;
      return Err(StockMessage(lines[failedAt.value]));
    }
    // commit
    ApplyStock(products0, lines);
    return Ok(saleId);
  }

  /** Listing order of `getSales`: newest sale first. */
  predicate NewerOrSame(a: Sale, b: Sale) {
    a.saleDate >= b.saleDate
  }

  predicate InRange(s: Sale, startDate: int, endDate: int) {
    startDate <= s.saleDate <= endDate
  }

  function Between(startDate: int, endDate: int): Sale -> bool {
    s => InRange(s, startDate, endDate)
  }

  /** The sales `getSales` selects: those between both bounds when both are given (the range is
      inclusive), otherwise all of them. */
  function Selected(sales: seq<Sale>, startDate: Option<int>, endDate: Option<int>): seq<Sale> {
    if startDate.Some? && endDate.Some? then Seqs.Filter(sales, Between(startDate.value, endDate.value))
    else sales
  }

  /** `getSales`: the selected sales, newest first, each exactly once. */
  function GetSales(db: Database, startDate: Option<int>, endDate: Option<int>): (r: seq<Sale>)
    reads db
    ensures multiset(r) == multiset(Selected(db.sales, startDate, endDate))
    ensures Seqs.SortedBy(r, NewerOrSame)
  {
    Seqs.SortBySorted(Selected(db.sales, startDate, endDate), NewerOrSame);
    Seqs.SortBy(Selected(db.sales, startDate, endDate), NewerOrSame)
  }

  /** With both bounds given, a sale is listed exactly when its date lies between them;
      with either bound missing, every sale is listed. */
  lemma GetSalesMembers(db: Database, startDate: Option<int>, endDate: Option<int>, s: Sale)
    ensures startDate.Some? && endDate.Some? ==>
      (s in GetSales(db, startDate, endDate) <==> s in db.sales && InRange(s, startDate.value, endDate.value))
    ensures startDate.None? || endDate.None? ==> (s in GetSales(db, startDate, endDate) <==> s in db.sales)
  {
    var r := GetSales(db, startDate, endDate);
    var sel := Selected(db.sales, startDate, endDate);
    assert s in r <==> s in sel by {
      assert s in r <==> s in multiset(r);
      assert s in sel <==> s in multiset(sel);
    }
    if startDate.Some? && endDate.Some? {
      Seqs.FilterMembers(db.sales, Between(startDate.value, endDate.value));
      assert Between(startDate.value, endDate.value)(s) == InRange(s, startDate.value, endDate.value);
    }
  }
}
