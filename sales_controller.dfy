/** The HTTP handler in front of the checkout transaction: request validation, the
    server-side subtotal, the fixed user id and the mapping of the outcome to a status. */
module SalesController {
  import opened Wrappers
  import opened Db
  import opened SalesModel

  /** `items` as the request body carries it. */
  datatype Items = Missing | NotArray | Lines(lines: seq<SaleLine>)

  /** The body of `POST /sales`. Amounts are numbers (0 when missing, since a missing amount
      and 0 are equally falsy); a missing or empty sale date is None. */
  datatype SaleRequest = SaleRequest(items: Items, totalAmount: int, saleDate: Option<int>, taxAmount: int)

  datatype Body = SaleCreated(saleId: int) | Error(message: string)

  datatype Response = Response(status: int, body: Body)

  const MissingFields := "Missing required fields: items, total_amount, sale_date, tax_amount"

  /** The user every sale is attributed to. */
  const UserId := 1

  /** The guard: items present, an array and non-empty; total, date and tax all truthy, so a
      tax of 0 is refused. */
  predicate Acceptable(req: SaleRequest) {
    req.items.Lines? && |req.items.lines| > 0 && req.totalAmount != 0 && req.saleDate.Some? && req.taxAmount != 0
  }

  /** The subtotal the handler computes: quantity times unit price, summed over the items. */
  function Subtotal(lines: seq<SaleLine>): int
    decreases |lines|
  {
    if lines == [] then 0
    else Subtotal(lines[..|lines| - 1]) + lines[|lines| - 1].quantity * lines[|lines| - 1].unitPrice
  }

  /** Sum of the `subtotal` column over some sale items. */
  function ItemTotal(items: seq<SaleItem>): int
    decreases |items|
  {
    if items == [] then 0 else ItemTotal(items[..|items| - 1]) + items[|items| - 1].subtotal
  }

  /** The subtotal stored on the header is the sum of the subtotals of the items the
      transaction writes for the same lines. */
  lemma {:induction false} SubtotalIsItemTotal(saleId: int, lines: seq<SaleLine>, products: map<int, Product>)
    requires AllNamed(lines, products)
    ensures ItemTotal(ItemsFor(saleId, lines, products)) == Subtotal(lines)
    decreases |lines|
  {
    if lines != [] {
      var init := lines[..|lines| - 1];
      assert AllNamed(init, products);
      SubtotalIsItemTotal(saleId, init, products);
      var items := ItemsFor(saleId, lines, products);
      assert items[..|items| - 1] == ItemsFor(saleId, init, products);
    }
  }

  /** The guard never compares the total with subtotal plus tax: any non-zero total is accepted alike. */
  lemma TotalNotChecked(req: SaleRequest, total: int)
    requires Acceptable(req) && total != 0
    ensures Acceptable(req.(totalAmount := total))
  {
  }

  /** `createSale` handler: 400 without touching the store when the guard fails; otherwise
      the transaction runs with the computed subtotal, tax and total as sent, and user 1;
      201 with the new sale id on commit, 400 with the transaction's message on rollback. */
  method HandleCreateSale(db: Database, req: SaleRequest, transactionNumber: string) returns (resp: Response)
    requires db.Valid()
    modifies db
    ensures db.Valid()
    ensures !Acceptable(req) ==> resp == Response(400, Error(MissingFields))
    ensures !Acceptable(req) || resp.status == 400 ==>
      && db.products == old(db.products) && db.sales == old(db.sales)
      && db.saleItems == old(db.saleItems) && db.logs == old(db.logs)
    ensures Acceptable(req) ==> var lines := req.items.lines;
      && (resp.status == 201 <==> Apply(old(db.products), lines).Ok?)
      && (resp.status == 201 ==>
            && resp.body == SaleCreated(old(db.nextSaleId))
            && db.sales == old(db.sales) + [Sale(old(db.nextSaleId), transactionNumber, req.saleDate.value,
                                                 Subtotal(lines), req.taxAmount, req.totalAmount, "Cash", UserId)]
            && db.products == Apply(old(db.products), lines).value
            && db.saleItems == old(db.saleItems) + ItemsFor(old(db.nextSaleId), lines, old(db.products))
            && db.logs == old(db.logs) + LogsFor(old(db.nextSaleId), lines, old(db.products), UserId))
      && (resp.status != 201 ==>
            resp == Response(400, Error(StockMessage(lines[Apply(old(db.products), lines).error]))))
    ensures !Acceptable(req) || resp.status == 400 ==> db.nextSaleId == old(db.nextSaleId)
    ensures resp.status == 201 ==> db.nextSaleId == old(db.nextSaleId) + 1
    ensures db.categories == old(db.categories) && db.suppliers == old(db.suppliers)
    ensures db.nextProductId == old(db.nextProductId) && db.nextCategoryId == old(db.nextCategoryId)
    ensures db.nextSupplierId == old(db.nextSupplierId)
  {
    if !Acceptable(req) {
      return Response(400, Error(MissingFields));
    }
    var lines := req.items.lines;
    var r := CreateSale(db, lines, Subtotal(lines), req.taxAmount, req.totalAmount, req.saleDate.value, UserId, transactionNumber);
    match r
    case Ok(saleId) =>
      resp := Response(201, SaleCreated(saleId));
    case Err(m) =>
      // err.message || 'Failed to create sale'
      resp := Response(400, Error(if m != "" then m else "Failed to create sale"));
  }
}
