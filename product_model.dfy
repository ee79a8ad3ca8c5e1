/** The product table's write path: the guards `addProduct`, `updateProduct` and `deleteProduct`
    run before they touch the table, the defaults applied on insert, and the product-code
    uniqueness query `checkProductCodeExists`. Each guard chain is a pure decision function; the
    methods apply its outcome to the store. */
module ProductModel {
  import opened Wrappers
  import opened Db
  import Text
  import Seqs

  /** A request-body value as JavaScript sees it: missing (or null), a number, or a string
      together with what `parseInt` makes of it (None for NaN). */
  datatype Field = Absent | Number(n: int) | Str(s: string, parsed: Option<int>)
  {
    /** JavaScript truthiness: a missing value, the number 0 and the empty string are falsy. */
    predicate Truthy() {
      match this
      case Absent => false
      case Number(n) => n != 0
      case Str(s, _) => s != ""
    }

    /** `parseInt` of the value; None stands for NaN. */
    function ParseInt(): Option<int> {
      match this
      case Absent => None
      case Number(n) => Some(n)
      case Str(_, p) => p
    }

    /** The value as a template literal prints it. */
    function Render(): string {
      match this
      case Absent => "undefined"
      case Number(n) => Text.IntToString(n)
      case Str(s, _) => s
    }
  }

  /** A path parameter (`req.params.id`): its text and what `parseInt` makes of it. */
  datatype IdParam = IdParam(text: string, value: Option<int>)

  /** The request body of an add or update. The price arrives as a number of cents (None when
      it is missing). */
  datatype ProductInput = ProductInput(
    code: string,
    name: string,
    categoryId: Field,
    supplierId: Field,
    unitPrice: Option<int>,
    stock: Field,
    reorderLevel: Field,
    size: Option<string>)

  // The messages are written as the phrase the HTTP handlers search for, followed by the rest.
  const MissingFields := "Missing required fields" + ": product_code, product_name, category_id, supplier_id, unit_price"
  const NonNumericIds := "Invalid category_id" + " or supplier_id: must be numbers"
  const InvalidProductId := "Invalid product ID: must be a number"
  const AlreadySold := "Cannot delete" + " product that has been sold"
  const ProductNotFound := "Product not found"
  const CodeRequired := "Failed to check product code: " + ("Product code" + " is required")

  function UnknownCategory(f: Field): string { "Invalid category_id" + (": " + f.Render() + " does not exist") }
  function UnknownSupplier(f: Field): string { "Invalid supplier_id" + (": " + f.Render() + " does not exist") }
  function DuplicateCode(code: string): string { "Product code" + (" " + code + " already exists") }
  function UpdateNotFound(id: IdParam): string { "Product " + id.text + " not found" }

  /** The five required fields are all truthy; a price of 0 counts as missing. */
  predicate HasRequired(p: ProductInput) {
    p.code != "" && p.name != "" && p.categoryId.Truthy() && p.supplierId.Truthy()
    && p.unitPrice.Some? && p.unitPrice.value != 0
  }

  /** The first four checks pass: required fields present, both ids numeric, and both rows exist. */
  predicate ReferencesResolve(categories: map<int, Category>, suppliers: map<int, Supplier>, p: ProductInput) {
    && HasRequired(p) && p.categoryId.ParseInt().Some? && p.supplierId.ParseInt().Some?
    && p.categoryId.ParseInt().value in categories && p.supplierId.ParseInt().value in suppliers
  }

  /** A numeric field with a default: the parsed value unless it is NaN or 0. */
  function OrDefault(f: Field, d: int): (r: int)
    ensures r == d || (f.ParseInt() == Some(r) && r != 0)
    ensures f.ParseInt().Some? && f.ParseInt().value != 0 ==> r == f.ParseInt().value
  {
    match f.ParseInt()
    case Some(n) => if n != 0 then n else d
    case None => d
  }

  /** The size column: an empty or missing size is stored as NULL. */
  function SizeOrNull(s: Option<string>): (r: Option<string>)
    ensures r.Some? ==> r == s && s.value != ""
    ensures s.Some? && s.value != "" ==> r == s
  {
    if s.Some? && s.value != "" then s else None
  }

  /** The ids of the products holding `code`, leaving out a truthy `exclude` id (a falsy one,
      absent or 0, leaves nothing out). */
  function Holders(products: map<int, Product>, code: string, exclude: Option<int>): set<int> {
    set id | id in products && products[id].code == code && !(exclude.Some? && exclude.value != 0 && id == exclude.value)
  }

  /** The count of holders is positive exactly when some product other than the excluded one has the code. */
  lemma HoldersNonEmpty(products: map<int, Product>, code: string, exclude: Option<int>)
    ensures |Holders(products, code, exclude)| > 0 <==>
      exists id :: id in products && products[id].code == code && !(exclude.Some? && exclude.value != 0 && id == exclude.value)
  {
    var h := Holders(products, code, exclude);
    if exists id :: id in products && products[id].code == code && !(exclude.Some? && exclude.value != 0 && id == exclude.value) {
      var id :| id in products && products[id].code == code && !(exclude.Some? && exclude.value != 0 && id == exclude.value);
      assert id in h;
    } else {
      assert h == {};
    }
  }

  /** `checkProductCodeExists`: an empty code is an error; otherwise the query counts the
      products holding that code and reports whether the count is positive. */
  function CodeExists(products: map<int, Product>, code: string, exclude: Option<int>): (r: Result<bool, string>)
    ensures r.Err? <==> code == ""
    ensures r.Err? ==> r.error == CodeRequired
    ensures r.Ok? ==> (r.value <==>
      exists id :: id in products && products[id].code == code && !(exclude.Some? && exclude.value != 0 && id == exclude.value))
  {
    if code == "" then Err(CodeRequired)
    else
      HoldersNonEmpty(products, code, exclude);
      Ok(|Holders(products, code, exclude)| > 0)
  }

  /** The checks shared by add and update, in their fixed order: required fields, numeric ids,
      category exists, supplier exists, code unique. On success, the parsed category and
      supplier ids. */
  function Validate(products: map<int, Product>, categories: map<int, Category>,
                    suppliers: map<int, Supplier>, p: ProductInput, exclude: Option<int>): (r: Result<(int, int), string>)
    ensures r.Ok? <==> ReferencesResolve(categories, suppliers, p) && CodeExists(products, p.code, exclude) == Ok(false)
    ensures r.Ok? ==> r.value == (p.categoryId.ParseInt().value, p.supplierId.ParseInt().value)
  {
    if !HasRequired(p) then Err(MissingFields)
    else if p.categoryId.ParseInt().None? || p.supplierId.ParseInt().None? then Err(NonNumericIds)
    else if p.categoryId.ParseInt().value !in categories then Err(UnknownCategory(p.categoryId))
    else if p.supplierId.ParseInt().value !in suppliers then Err(UnknownSupplier(p.supplierId))
    else match CodeExists(products, p.code, exclude)
      case Err(e) => Err(e)
      case Ok(taken) => if taken then Err(DuplicateCode(p.code)) else Ok((p.categoryId.ParseInt().value, p.supplierId.ParseInt().value))
  }

  /** The row written for `p` under `id`, with the insert defaults: stock 0, reorder level 5, no size. */
  function RowFor(id: int, p: ProductInput, ids: (int, int)): (row: Product)
    ensures row.id == id && row.code == p.code && row.name == p.name
    ensures row.categoryId == ids.0 && row.supplierId == ids.1
    ensures p.unitPrice.Some? ==> row.unitPrice == p.unitPrice.value
    ensures row.stock == OrDefault(p.stock, 0) && row.reorderLevel == OrDefault(p.reorderLevel, 5)
    ensures row.size == SizeOrNull(p.size)
  {
    Product(id, p.code, p.name, ids.0, ids.1, p.unitPrice.GetOr(0),
            OrDefault(p.stock, 0), OrDefault(p.reorderLevel, 5), SizeOrNull(p.size))
  }

  /** `addProduct` before the insert: the row it would insert under the serial id `newId`, or
      the first failed check's message. */
  function AddDecision(products: map<int, Product>, categories: map<int, Category>,
                       suppliers: map<int, Supplier>, p: ProductInput, newId: int): (r: Result<Product, string>)
    ensures r.Ok? <==> Validate(products, categories, suppliers, p, None).Ok?
    ensures r.Ok? ==> r.value == RowFor(newId, p, Validate(products, categories, suppliers, p, None).value)
    ensures r.Err? ==> r.error == Validate(products, categories, suppliers, p, None).error
  {
    match Validate(products, categories, suppliers, p, None)
    case Err(e) => Err(e)
    case Ok(ids) => Ok(RowFor(newId, p, ids))
  }

  /** `updateProduct` before the update: the id must parse, the shared checks must pass with
      the product's own id left out of the code check, and only then is a missing row reported. */
  function UpdateDecision(products: map<int, Product>, categories: map<int, Category>,
                          suppliers: map<int, Supplier>, id: IdParam, p: ProductInput): (r: Result<Product, string>)
    ensures id.value.None? ==> r == Err(InvalidProductId)
    ensures r.Ok? <==>
      id.value.Some? && Validate(products, categories, suppliers, p, id.value).Ok? && id.value.value in products
    ensures r.Ok? ==> r.value == RowFor(id.value.value, p, Validate(products, categories, suppliers, p, id.value).value)
  {
    match id.value
    case None => Err(InvalidProductId)
    case Some(pid) =>
      match Validate(products, categories, suppliers, p, id.value)
      case Err(e) => Err(e)
      case Ok(ids) => if pid in products then Ok(RowFor(pid, p, ids)) else Err(UpdateNotFound(id))
  }

  /** The sale items that name product `pid`. */
  function SoldAs(pid: int): SaleItem -> bool {
    (it: SaleItem) => it.productId == pid
  }

  /** `deleteProduct` before the delete: the id must parse, no sale item may name the product
      (checked before existence), and the row must exist. On success, the row removed. */
  function DeleteDecision(products: map<int, Product>, saleItems: seq<SaleItem>, id: IdParam): (r: Result<Product, string>)
    ensures id.value.None? ==> r == Err(InvalidProductId)
    ensures r.Ok? <==>
      && id.value.Some? && id.value.value in products
      && forall i :: 0 <= i < |saleItems| ==> saleItems[i].productId != id.value.value
    ensures r.Ok? ==> r.value == products[id.value.value]
  {
    match id.value
    case None => Err(InvalidProductId)
    case Some(pid) =>
      Seqs.CountZero(saleItems, SoldAs(pid));
      if Seqs.Count(saleItems, SoldAs(pid)) > 0 then Err(AlreadySold)
      else if pid !in products then Err(ProductNotFound)
      else Ok(products[pid])
  }

  /** `getProductById`: a non-numeric id is an error; otherwise the row, if any. */
  function GetProductById(db: Database, id: IdParam): (r: Result<Option<Product>, string>)
    reads db
    ensures r.Err? <==> id.value.None?
    ensures r.Err? ==> r.error == "Failed to fetch product " + id.text + ": " + InvalidProductId
    ensures r.Ok? ==> (r.value.Some? <==> id.value.value in db.products)
    ensures r.Ok? && r.value.Some? ==> r.value.value == db.products[id.value.value]
  {
    match id.value
    case None => Err("Failed to fetch product " + id.text + ": " + InvalidProductId)
    case Some(pid) => Ok(if pid in db.products then Some(db.products[pid]) else None)
  }

  /** `addProduct`: on success the row is inserted under the next serial id; on any failed
      check nothing is written and the message is wrapped. */
  method AddProduct(db: Database, p: ProductInput) returns (r: Result<Product, string>)
    requires db.Valid()
    modifies db
    ensures db.Valid()
    ensures var d := AddDecision(old(db.products), old(db.categories), old(db.suppliers), p, old(db.nextProductId));
      match d
      case Ok(row) =>
        && r == Ok(row)
        && db.products == old(db.products)[row.id := row]
        && db.nextProductId == old(db.nextProductId) + 1
      case Err(e) =>
        && r == Err("Failed to add product: " + e)
        && db.products == old(db.products) && db.nextProductId == old(db.nextProductId)
    ensures db.categories == old(db.categories) && db.suppliers == old(db.suppliers)
    ensures db.sales == old(db.sales) && db.saleItems == old(db.saleItems) && db.logs == old(db.logs)
    ensures db.nextCategoryId == old(db.nextCategoryId) && db.nextSupplierId == old(db.nextSupplierId)
    ensures db.nextSaleId == old(db.nextSaleId)
  {
    var d := AddDecision(db.products, db.categories, db.suppliers, p, db.nextProductId);
    match d
    case Err(e) =>
      r := Err("Failed to add product: " + e);
    case Ok(row) =>
      // the row goes in under the next serial id and is returned
      db.products := db.products[row.id := row];
      db.nextProductId := db.nextProductId + 1;
      r := Ok(row);
  }

  /** `updateProduct`: on success the whole row under the parsed id is replaced; otherwise
      nothing changes and the message is wrapped. */
  method UpdateProduct(db: Database, id: IdParam, p: ProductInput) returns (r: Result<Product, string>)
    requires db.Valid()
    modifies db
    ensures db.Valid()
    ensures var d := UpdateDecision(old(db.products), old(db.categories), old(db.suppliers), id, p);
      match d
      case Ok(row) => r == Ok(row) && db.products == old(db.products)[row.id := row]
      case Err(e) => r == Err("Failed to update product: " + e) && db.products == old(db.products)
    ensures db.categories == old(db.categories) && db.suppliers == old(db.suppliers)
    ensures db.sales == old(db.sales) && db.saleItems == old(db.saleItems) && db.logs == old(db.logs)
    ensures db.nextProductId == old(db.nextProductId) && db.nextCategoryId == old(db.nextCategoryId)
    ensures db.nextSupplierId == old(db.nextSupplierId) && db.nextSaleId == old(db.nextSaleId)
  {
    var d := UpdateDecision(db.products, db.categories, db.suppliers, id, p);
    match d
    case Err(e) =>
      r := Err("Failed to update product: " + e);
    case Ok(row) =>
      // every column of the row is replaced and the new row is returned
      db.products := db.products[row.id := row];
      r := Ok(row);
  }

  /** `deleteProduct`: on success exactly that row is removed; otherwise nothing changes and
      the message is wrapped. */
  method DeleteProduct(db: Database, id: IdParam) returns (r: Result<Product, string>)
    requires db.Valid()
    modifies db
    ensures db.Valid()
    ensures var d := DeleteDecision(old(db.products), old(db.saleItems), id);
      match d
      case Ok(row) => r == Ok(row) && db.products == old(db.products) - {row.id}
      case Err(e) => r == Err("Failed to delete product: " + e) && db.products == old(db.products)
    ensures db.categories == old(db.categories) && db.suppliers == old(db.suppliers)
    ensures db.sales == old(db.sales) && db.saleItems == old(db.saleItems) && db.logs == old(db.logs)
    ensures db.nextProductId == old(db.nextProductId) && db.nextCategoryId == old(db.nextCategoryId)
    ensures db.nextSupplierId == old(db.nextSupplierId) && db.nextSaleId == old(db.nextSaleId)
  {
    var d := DeleteDecision(db.products, db.saleItems, id);
    match d
    case Err(e) =>
      r := Err("Failed to delete product: " + e);
    case Ok(row) =>
      // the row goes, and is returned
      db.products := db.products - {row.id};
      r := Ok(row);
  }

  // ---------------------------------------------------------------------------------------
  // Properties of the guards

  /** The checks run in a fixed order and the first failure is the one reported. */
  lemma ValidateOrder(products: map<int, Product>, categories: map<int, Category>,
                      suppliers: map<int, Supplier>, p: ProductInput, exclude: Option<int>)
    ensures !HasRequired(p) ==> Validate(products, categories, suppliers, p, exclude) == Err(MissingFields)
    ensures (HasRequired(p) && (p.categoryId.ParseInt().None? || p.supplierId.ParseInt().None?)) ==>
      Validate(products, categories, suppliers, p, exclude) == Err(NonNumericIds)
    ensures (HasRequired(p) && p.categoryId.ParseInt().Some? && p.supplierId.ParseInt().Some?
             && p.categoryId.ParseInt().value !in categories) ==>
      Validate(products, categories, suppliers, p, exclude) == Err(UnknownCategory(p.categoryId))
    ensures (HasRequired(p) && p.categoryId.ParseInt().Some? && p.supplierId.ParseInt().Some?
             && p.categoryId.ParseInt().value in categories && p.supplierId.ParseInt().value !in suppliers) ==>
      Validate(products, categories, suppliers, p, exclude) == Err(UnknownSupplier(p.supplierId))
    ensures ReferencesResolve(categories, suppliers, p) && CodeExists(products, p.code, exclude) == Ok(true) ==>
      Validate(products, categories, suppliers, p, exclude) == Err(DuplicateCode(p.code))
  {
  }

  /** A price of 0 is rejected as a missing field, before anything else is looked at. */
  lemma ZeroPriceRejected(products: map<int, Product>, categories: map<int, Category>,
                          suppliers: map<int, Supplier>, p: ProductInput, newId: int)
    requires p.unitPrice == Some(0)
    ensures AddDecision(products, categories, suppliers, p, newId) == Err(MissingFields)
  {
  }

  /** An added product names an existing category and supplier, so the references stay valid. */
  lemma AddKeepsReferences(products: map<int, Product>, categories: map<int, Category>,
                           suppliers: map<int, Supplier>, p: ProductInput, newId: int)
    requires ReferencesValid(products, categories, suppliers)
    requires AddDecision(products, categories, suppliers, p, newId).Ok?
    ensures ReferencesValid(products[newId := AddDecision(products, categories, suppliers, p, newId).value], categories, suppliers)
  {
  }

  /** After a successful add, the new row is the only product holding its code, and the codes stay unique. */
  lemma AddKeepsCodesUnique(products: map<int, Product>, categories: map<int, Category>,
                            suppliers: map<int, Supplier>, p: ProductInput, newId: int)
    requires CodesUnique(products)
    requires AddDecision(products, categories, suppliers, p, newId).Ok?
    ensures var after := products[newId := AddDecision(products, categories, suppliers, p, newId).value];
      && CodesUnique(after)
      && (forall id :: id in after && after[id].code == p.code <==> id == newId)
  {
    var after := products[newId := AddDecision(products, categories, suppliers, p, newId).value];
    assert CodeExists(products, p.code, None) == Ok(false);
    forall a, b | a in after && b in after && after[a].code == after[b].code ensures a == b {
      if a != newId && b != newId {
        assert after[a] == products[a] && after[b] == products[b];
      }
    }
  }

  /** Adding the same product a second time fails with "already exists". */
  lemma SecondAddFails(products: map<int, Product>, categories: map<int, Category>,
                       suppliers: map<int, Supplier>, p: ProductInput, newId: int, nextId: int)
    requires AddDecision(products, categories, suppliers, p, newId).Ok?
    ensures var after := products[newId := AddDecision(products, categories, suppliers, p, newId).value];
      AddDecision(after, categories, suppliers, p, nextId) == Err(DuplicateCode(p.code))
  {
    var after := products[newId := AddDecision(products, categories, suppliers, p, newId).value];
    assert after[newId].code == p.code;
    assert CodeExists(after, p.code, None) == Ok(true);
  }

  /** An update may keep the product's own code: its id is left out of the code check. */
  lemma UpdateKeepsOwnCode(products: map<int, Product>, categories: map<int, Category>,
                           suppliers: map<int, Supplier>, id: IdParam, p: ProductInput)
    requires CodesUnique(products)
    requires id.value.Some? && id.value.value != 0 && id.value.value in products
    requires products[id.value.value].code == p.code
    requires ReferencesResolve(categories, suppliers, p)
    ensures UpdateDecision(products, categories, suppliers, id, p).Ok?
  {
    assert CodeExists(products, p.code, id.value) == Ok(false);
  }

  /** An update cannot take a code another product holds. */
  lemma UpdateCannotTakeOthersCode(products: map<int, Product>, categories: map<int, Category>,
                                   suppliers: map<int, Supplier>, id: IdParam, p: ProductInput, other: int)
    requires other in products && products[other].code == p.code
    requires id.value != Some(other)
    ensures UpdateDecision(products, categories, suppliers, id, p).Err?
    ensures id.value.Some? && ReferencesResolve(categories, suppliers, p) ==>
      UpdateDecision(products, categories, suppliers, id, p) == Err(DuplicateCode(p.code))
  {
    if id.value.Some? && p.code != "" {
      assert CodeExists(products, p.code, id.value) == Ok(true);
    }
  }

  /** Updating a missing id changes no row; once the other checks pass it reports "Product <id> not found". */
  lemma UpdateMissing(products: map<int, Product>, categories: map<int, Category>,
                      suppliers: map<int, Supplier>, id: IdParam, p: ProductInput)
    requires id.value.Some? && id.value.value !in products
    ensures UpdateDecision(products, categories, suppliers, id, p).Err?
    ensures Validate(products, categories, suppliers, p, id.value).Ok? ==>
      UpdateDecision(products, categories, suppliers, id, p) == Err(UpdateNotFound(id))
  {
  }

  /** A successful update keeps every product's references valid and every code unique. */
  lemma UpdateKeepsInvariants(products: map<int, Product>, categories: map<int, Category>,
                              suppliers: map<int, Supplier>, id: IdParam, p: ProductInput)
    requires ReferencesValid(products, categories, suppliers) && CodesUnique(products)
    requires UpdateDecision(products, categories, suppliers, id, p).Ok?
    ensures var row := UpdateDecision(products, categories, suppliers, id, p).value;
      ReferencesValid(products[row.id := row], categories, suppliers) && CodesUnique(products[row.id := row])
  {
    var row := UpdateDecision(products, categories, suppliers, id, p).value;
    var after := products[row.id := row];
    assert CodeExists(products, p.code, id.value) == Ok(false);
    forall a, b | a in after && b in after && after[a].code == after[b].code ensures a == b {
      if a != row.id && b != row.id {
        assert after[a] == products[a] && after[b] == products[b];
      }
    }
  }

  /** A product named by any sale item cannot be deleted, whether or not it still exists. */
  lemma {:induction false} DeleteSoldRefused(products: map<int, Product>, saleItems: seq<SaleItem>, id: IdParam, i: int)
    requires id.value.Some? && 0 <= i < |saleItems| && saleItems[i].productId == id.value.value
    ensures DeleteDecision(products, saleItems, id) == Err(AlreadySold)
  {
    Seqs.CountZero(saleItems, SoldAs(id.value.value));
  }

  /** Deleting an unsold, missing product reports "Product not found". */
  lemma DeleteMissing(products: map<int, Product>, saleItems: seq<SaleItem>, id: IdParam)
    requires id.value.Some? && id.value.value !in products
    requires forall i :: 0 <= i < |saleItems| ==> saleItems[i].productId != id.value.value
    ensures DeleteDecision(products, saleItems, id) == Err(ProductNotFound)
  {
    var pid := id.value.value;
    Seqs.CountZero(saleItems, SoldAs(pid));
  }

  /** A successful delete keeps every sold product in the table. */
  lemma DeleteKeepsSoldProducts(products: map<int, Product>, saleItems: seq<SaleItem>, id: IdParam)
    requires SoldProductsExist(saleItems, products)
    requires DeleteDecision(products, saleItems, id).Ok?
    ensures SoldProductsExist(saleItems, products - {id.value.value})
  {
  }
}
