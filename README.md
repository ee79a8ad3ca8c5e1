# Hardware-store inventory and point of sale, modelled in Dafny

The system is a small retail back office. A Node backend stores products, categories,
suppliers, sales, sale items and inventory-log entries in PostgreSQL. A React frontend
offers a checkout screen, an inventory screen and a dashboard.

This project models the core of that system:

- **The store.** The tables are kept as an in-memory `Database` object (module `Db`). Keyed
  tables are `map`s and the sale tables are append-only `seq`s. Serial ids come from counters.
- **The checkout transaction** (`SalesModel`). `createSale` walks the cart in order. For each
  line it re-checks the stock as already decremented by earlier lines, writes a sale item,
  decrements the stock and appends a log entry. It rolls everything back on the first line
  that fails. The loop is an imperative method proved against the pure function `Apply`.
  The request guard, the subtotal computed on the server and the status mapping live in
  `SalesController`.
- **The catalog guards** (`ProductModel`, `ProductController`, `CategoryModel`, `SupplierModel`):
  - required fields, judged by JavaScript truthiness (0 counts as missing);
  - existence checks on the referenced category and supplier rows;
  - product-code uniqueness, with the product's own id excluded on update;
  - delete guards that refuse while dependent rows exist;
  - the fixed order in which the checks run, and the defaults applied on insert;
  - the controllers' mapping from error-message substrings to HTTP status.
- **The checkout screen** (`PointOfSale`). The cart is a sequence of lines. Add, remove and
  change-quantity are functions from cart to cart. The module also covers the subtotal, the
  payload posted for checkout, and the product search.
- **Stock classification** (`StockStatus`, `Inventory`, `Dashboard`):
  - out / low / in stock, as every screen draws it;
  - the inventory filters and `clearFilters`;
  - the category choices;
  - the list update after a delete;
  - the dashboard figures and preview.

Money is in integer cents throughout, so every sum is exact. Tax and total are values the
caller supplies.

Behaviour worth knowing before reading the contracts, all of it as the code does it:

- Sale quantities are not validated. A cart of zero or negative quantities over existing
  products with non-negative stock commits (`SalesModel.NonPositiveQuantitiesCommit`). The sale
  header is inserted before any line is checked, and is rolled back with the rest.
- Nothing checks that the total equals subtotal plus tax (`SalesController.TotalNotChecked`).
- A missing product is answered differently by each handler:
  - a fetch of a missing product answers 404;
  - an update of a missing product answers 500 (see Findings);
  - a delete of a missing product answers 400.
- The insufficient-stock error names only the product id, not the quantities
  (`SalesModel.StockMessage`).
- No lock is taken on the stock while a sale is checked. The model is sequential.

## Model

| member | source | states |
|---|---|---|
| SalesModel.Apply | backend/src/models/salesModel.js:37-63 | The cart's lines in order, each checked against the stock as already decremented by earlier lines. The result is the final product table, or the index of the first line that fails. |
| SalesModel.ApplyStock | backend/src/models/salesModel.js:37-63 | On success, each product named by a line has lost exactly the summed quantity of the lines naming it. Every other product keeps its row. |
| SalesModel.ApplyUntouched | backend/src/models/salesModel.js:60-63 | After a committed sale, a product that no line names keeps its row. |
| SalesModel.ApplyNamedNonNegative | backend/src/models/salesModel.js:39-45 | After a committed sale, every product the cart names has non-negative stock, whatever its stock was before. |
| SalesModel.ApplyKeepsStockNonNegative | backend/src/models/salesModel.js:39-45 | A committed sale never leaves any stock below zero when none was below zero before. |
| SalesModel.ApplyErrPersists | backend/src/models/salesModel.js:37-45 | Once a prefix of the cart has failed, the whole cart fails at the same line. |
| SalesModel.ApplyFailsAt | backend/src/models/salesModel.js:43-44 | The cart fails at line k exactly when every earlier line passes and line k names no product or asks for more than the remaining stock. |
| SalesModel.QtyForNonPositive | backend/src/models/salesModel.js:60-63 | Lines whose quantities are all zero or negative sum to a quantity of at most zero for every product. |
| SalesModel.NonPositiveQuantitiesCommit | backend/src/models/salesModel.js:43-44 | A cart of zero or negative quantities over existing products with non-negative stock always commits: quantities are not validated. |
| SalesModel.ItemsFor | backend/src/models/salesModel.js:47-58 | There is one sale item per line, in cart order. Each carries the sale id, subtotal = quantity × unit price, and the code and name from the line or else from the product row. |
| SalesModel.LogsFor | backend/src/models/salesModel.js:65-76 | There is one log entry per line, in cart order. Each has change −quantity, reason 'Sale transaction', reference type 'sale', the sale id as reference and the given user. |
| SalesModel.InsertLine | backend/src/models/salesModel.js:47-76 | The writes for one passing line: one sale item appended, that product's stock decremented, one log entry appended. Nothing else changes. |
| SalesModel.InsertLines | backend/src/models/salesModel.js:37-77 | The loop. If `Apply` succeeds, the products become its table and the items and logs grow by `ItemsFor` and `LogsFor`. Otherwise it returns the index of the first failing line, as `Apply` reports it. |
| SalesModel.CreateSale | backend/src/models/salesModel.js:20-84 | Commit iff `Apply` succeeds. On commit: one header with subtotal, tax and total as passed and payment 'Cash'; the new sale id returned; the items, logs and stock of `InsertLines`. On failure: every table and the sale counter as before, and the line's message returned. |
| SalesModel.StockMessage | backend/src/models/salesModel.js:43-44 | The rollback message names the product id of the failing line. |
| SalesModel.GetSales | backend/src/models/salesModel.js:4-19 | With both bounds, only sales dated between them; otherwise every sale. Sorted newest first, each listed sale exactly once. |
| SalesModel.GetSalesMembers | backend/src/models/salesModel.js:8-12 | With both bounds, a sale is listed iff it is stored and dated between them. With a bound missing, a sale is listed iff it is stored. |
| SalesController.HandleCreateSale | backend/src/controllers/salesController.js:14-38 | Guard failure: 400 with the missing-fields message, and the store and its id counters are untouched. Otherwise the transaction runs with the server-side subtotal, tax and total as sent, and user 1. 201 with the new id iff `Apply` succeeds, else 400 with the failing line's message. |
| SalesController.SubtotalIsItemTotal | backend/src/controllers/salesController.js:26 | The subtotal stored on the header equals the sum of the subtotals of the sale items written for the same lines. |
| SalesController.TotalNotChecked | backend/src/controllers/salesController.js:19-21 | The guard accepts any non-zero total: total = subtotal + tax is never checked. |
| ProductModel.OrDefault | backend/src/models/productModel.js:418-419 | A numeric field with a default: the parsed value when it is a number other than 0, otherwise the default. |
| ProductModel.SizeOrNull | backend/src/models/productModel.js:420 | An empty or missing size is stored as NULL. Any other size is stored as sent. |
| ProductModel.HoldersNonEmpty | backend/src/models/productModel.js:540-552 | The query's count is positive iff some product other than a truthy excluded id holds the code. |
| ProductModel.CodeExists | backend/src/models/productModel.js:534-557 | An empty code is an error. Otherwise the answer is true iff some product with an id other than a truthy exclude id holds that code. |
| ProductModel.Validate | backend/src/models/productModel.js:375-397 | The shared checks in order: required fields, numeric ids, category exists, supplier exists, code unique. The first failure's message is returned. |
| ProductModel.RowFor | backend/src/models/productModel.js:412-421 | The row inserted: the fields as sent, a falsy stock as 0, a falsy reorder level as 5, an empty size as NULL. |
| ProductModel.AddDecision | backend/src/models/productModel.js:362-429 | Ok with the row under the new serial id iff validation passes. Otherwise the first failed check's message. |
| ProductModel.UpdateDecision | backend/src/models/productModel.js:431-509 | A non-numeric id is an error. Otherwise validation runs with the product's own id excluded from the code check. A missing row gives 'Product <id> not found'. |
| ProductModel.DeleteDecision | backend/src/models/productModel.js:511-532 | A non-numeric id is an error. The delete is allowed iff the id parses, the row exists and no sale item names the product; a sold product is refused before existence is checked. |
| ProductModel.GetProductById | backend/src/models/productModel.js:348-360 | A non-numeric id is an error. Otherwise the row under that id, if there is one. |
| ProductModel.AddProduct | backend/src/models/productModel.js:362-429 | On success, exactly the decided row is inserted under the next serial id. On any failure, nothing changes and the message is returned prefixed 'Failed to add product: '. |
| ProductModel.UpdateProduct | backend/src/models/productModel.js:431-509 | On success, the row under the parsed id is replaced by the decided row. Otherwise nothing changes and the message is returned prefixed 'Failed to update product: '. |
| ProductModel.DeleteProduct | backend/src/models/productModel.js:511-532 | On success, exactly that row is removed and returned. Otherwise nothing changes and the message is returned prefixed 'Failed to delete product: '. |
| ProductModel.ValidateOrder | backend/src/models/productModel.js:375-397 | Each check's message is reported exactly when every earlier check passed and this one fails. |
| ProductModel.ZeroPriceRejected | backend/src/models/productModel.js:375-377 | A price of 0 is rejected as a missing field, before anything else is looked at. |
| ProductModel.AddKeepsReferences | backend/src/models/productModel.js:385-392 | An added product names an existing category and an existing supplier. |
| ProductModel.AddKeepsCodesUnique | backend/src/models/productModel.js:394-397 | After a successful add, the new row is the only product holding its code, and the codes of the table stay unique. |
| ProductModel.SecondAddFails | backend/src/models/productModel.js:394-397 | Adding the same input again, after a successful add, fails with the 'already exists' message. |
| ProductModel.UpdateKeepsOwnCode | backend/src/models/productModel.js:468-471 | An update that keeps the product's own code passes the code check. |
| ProductModel.UpdateCannotTakeOthersCode | backend/src/models/productModel.js:468-471 | An update that takes a code held by another product fails with the 'already exists' message. |
| ProductModel.UpdateMissing | backend/src/models/productModel.js:500-503 | Updating a missing id changes no row. Once the other checks pass, it reports 'Product <id> not found'. |
| ProductModel.UpdateKeepsInvariants | backend/src/models/productModel.js:431-509 | A successful update keeps every product's category and supplier references valid and every code unique. |
| ProductModel.DeleteSoldRefused | backend/src/models/productModel.js:518-521 | A product named by any sale item cannot be deleted, whether or not its row still exists. |
| ProductModel.DeleteMissing | backend/src/models/productModel.js:523-526 | Deleting an unsold, missing product reports 'Product not found'. |
| ProductModel.DeleteKeepsSoldProducts | backend/src/models/productModel.js:511-532 | After a successful delete, every product named by a sale item is still in the table. |
| ProductController.AddResponse | backend/src/controllers/productController.js:110-124 | 201 with the row on success. 400 when the message contains one of the four client phrases. Otherwise 500. |
| ProductController.AddOutcomes | backend/src/controllers/productController.js:112-123 | Every error `addProduct` can raise is answered with 400, and success with 201. |
| ProductController.ValidateClientErrors | backend/src/controllers/productController.js:116-120 | Every message validation can produce, under any prefix, contains one of the add handler's client phrases. |
| ProductController.UpdateResponse | backend/src/controllers/productController.js:127-145 | As written: 200 on success. 400 for the add phrases or 'Product not found'. Otherwise 500. The handler's 404 branch cannot be reached, because the model reports a missing row as an error. |
| ProductController.UpdateValidationIs400 | backend/src/controllers/productController.js:136-141 | A validation error on update is answered with 400, as on add. |
| ProductController.UpdateMissingIs500 | backend/src/controllers/productController.js:136-145 | As written, updating missing product 7 with an otherwise valid body is answered with 500. |
| ProductController.UpdateResponseCorrected | backend/src/controllers/productController.js:127-145 | The same mapping, except that a message naming a missing product is a client error. |
| ProductController.UpdateMissingIs400Corrected | backend/src/controllers/productController.js:136-141 | With the corrected mapping, updating any missing product with an otherwise valid body is answered with 400. |
| ProductController.CorrectionIsConservative | backend/src/controllers/productController.js:136-145 | The corrected mapping agrees with the original on every outcome whose message does not mention 'not found'. |
| ProductController.DeleteResponse | backend/src/controllers/productController.js:148-159 | 200 with the row on success. 400 for 'Product not found' or 'Cannot delete'. Otherwise 500. |
| ProductController.DeleteOutcomes | backend/src/controllers/productController.js:150-159 | Delete answers 200 on success, 400 when the product was sold or is missing, and 500 for a non-numeric id. |
| ProductController.InvalidIdUnrecognisedOnDelete | backend/src/controllers/productController.js:154 | The invalid-id message contains neither phrase the delete handler looks for. |
| ProductController.GetResponse | backend/src/controllers/productController.js:97-107 | 200 with the row, 404 when there is none, 500 for any model error. |
| ProductController.GetOutcomes | backend/src/controllers/productController.js:99-107 | Fetching one product answers 500 for a non-numeric id, 404 for a missing row, and 200 otherwise. |
| ProductController.CheckCodeResponse | backend/src/controllers/productController.js:162-173 | An empty code gets 400 without asking the model. Otherwise 200 with whether any product holds the code; no exclude id is passed. |
| ProductController.CheckCodeNever500 | backend/src/controllers/productController.js:164-168 | Checking a code never answers 500: the model's only error is ruled out by the handler's own check. |
| CategoryModel.UsersNonEmpty | backend/src/models/categoryModel.js:65-68 | The reference count is positive iff some product has that category id. |
| CategoryModel.DeleteDecision | backend/src/models/categoryModel.js:62-79 | Refused while any product refers to the category. Then 'Category not found' for a missing id. Otherwise the row. |
| CategoryModel.AddCategory | backend/src/models/categoryModel.js:24-41 | A falsy name is refused and nothing is inserted. Otherwise the row is inserted under the next id. |
| CategoryModel.UpdateCategory | backend/src/models/categoryModel.js:43-60 | A falsy name is refused. A missing id updates nothing and returns no row. Otherwise that row is replaced. |
| CategoryModel.DeleteCategory | backend/src/models/categoryModel.js:62-79 | On success, exactly that row is removed. On refusal, nothing changes. |
| CategoryModel.DeleteKeepsReferences | backend/src/models/categoryModel.js:65-74 | A category some product refers to is in the table and its delete is refused, so it survives. After a successful delete, every product's category reference stays valid. |
| CategoryModel.ByNameIsPreorder | backend/src/models/categoryModel.js:6 | Name order is total and transitive, so the sorted listing is well defined. |
| CategoryModel.GetAllCategories | backend/src/models/categoryModel.js:4-12 | The listing is sorted by name and is a permutation of the scan. |
| CategoryModel.ListingIsTable | backend/src/models/categoryModel.js:4-12 | A category is listed iff it is a row of the table. |
| SupplierModel.RowFor | backend/src/models/supplierModel.js:26-30 | The stored row holds every field exactly as sent. |
| SupplierModel.UsersNonEmpty | backend/src/models/supplierModel.js:55-58 | The reference count is positive iff some product has that supplier id. |
| SupplierModel.DeleteDecision | backend/src/models/supplierModel.js:52-66 | Refused while any product refers to the supplier. Otherwise the row if it exists, or no row. |
| SupplierModel.AddSupplier | backend/src/models/supplierModel.js:24-36 | No field is checked: the row as sent is inserted under the next id. |
| SupplierModel.UpdateSupplier | backend/src/models/supplierModel.js:38-50 | No field is checked. A missing id updates nothing and returns no row. |
| SupplierModel.DeleteSupplier | backend/src/models/supplierModel.js:52-66 | On success, the row (if any) is removed and returned. On refusal, nothing changes. |
| SupplierModel.DeleteKeepsReferences | backend/src/models/supplierModel.js:55-61 | A supplier some product refers to is in the table and its delete is refused, so it survives. After a successful delete, every product still names an existing supplier. |
| SupplierModel.ByNameIsPreorder | backend/src/models/supplierModel.js:6 | Name order, with NULL names last, is total and transitive. |
| SupplierModel.GetAllSuppliers | backend/src/models/supplierModel.js:4-12 | The listing is sorted by name and is a permutation of the scan. |
| SupplierModel.NamedFirst | backend/src/models/supplierModel.js:6 | In the listing, every named supplier comes before every supplier without a name. |
| PointOfSale.Find | frontend/src/components/PointOfSale.jsx:33 | The first line naming the product. None iff no line names it. |
| PointOfSale.Increment | frontend/src/components/PointOfSale.jsx:36-40 | Same length and products. The named product's quantity is one higher; every other line is unchanged. |
| PointOfSale.AddToCart | frontend/src/components/PointOfSale.jsx:32-47 | A new product is appended with quantity 1, with no stock check. A product already in the cart is incremented iff its quantity is below the listed stock; otherwise the cart is unchanged. |
| PointOfSale.RemoveFromCart | frontend/src/components/PointOfSale.jsx:49-51 | An order-preserving subsequence holding exactly the lines with another id, shorter than the cart by exactly the number of lines naming the product. |
| PointOfSale.Clamp | frontend/src/components/PointOfSale.jsx:56 | The result is at least 1 and at most the stock (or 1). It is q + delta exactly when that lies in range. |
| PointOfSale.Requantified | frontend/src/components/PointOfSale.jsx:54-57 | The named line's quantity is clamped; every other line is unchanged. |
| PointOfSale.UpdateKeepsLines | frontend/src/components/PointOfSale.jsx:53-59 | On a well-formed cart no line is dropped. The named line gets the clamped quantity and the others are unchanged. |
| PointOfSale.UpdateKeepsInvariants | frontend/src/components/PointOfSale.jsx:53-59 | Changing a quantity keeps ids distinct and quantities ≥ 1, and keeps every line within its stock. |
| PointOfSale.AddKeepsWellFormed | frontend/src/components/PointOfSale.jsx:32-47 | Adding keeps product ids distinct and quantities ≥ 1. |
| PointOfSale.AddKeepsWithinStock | frontend/src/components/PointOfSale.jsx:32-47 | Adding the product as currently listed keeps every line within its stock. |
| PointOfSale.RemoveKeepsWellFormed | frontend/src/components/PointOfSale.jsx:49-51 | Removing keeps the cart well formed, and no line names the removed product. |
| PointOfSale.RemoveDistinct | frontend/src/components/PointOfSale.jsx:49-51 | The ids left after removal are pairwise distinct. |
| PointOfSale.Payload | frontend/src/components/PointOfSale.jsx:82-87 | Same length and order as the cart. Each line carries the product id, quantity and unit price, with no code or name. |
| PointOfSale.PayloadSubtotal | frontend/src/components/PointOfSale.jsx:61-63 | The subtotal the server computes from the payload is the subtotal the screen shows. |
| PointOfSale.PayloadQuantity | frontend/src/components/PointOfSale.jsx:82-87 | In a cart with distinct ids, the payload asks for each product exactly its line's quantity. |
| PointOfSale.CheckoutDebitsCart | frontend/src/components/PointOfSale.jsx:75-104 | When the sale from a well-formed cart commits, each product in the cart loses exactly its cart quantity and every other product is unchanged. |
| PointOfSale.HandleCheckout | frontend/src/components/PointOfSale.jsx:75-104 | An empty cart posts nothing and stays. Otherwise the payload request is posted, and the cart is cleared iff the post succeeded. |
| PointOfSale.CheckoutGuard | frontend/src/components/PointOfSale.jsx:82-91 | A request from a non-empty cart passes the server's guard iff the total and the tax are non-zero. |
| PointOfSale.FilteredProducts | frontend/src/components/PointOfSale.jsx:106-109 | An order-preserving subsequence holding exactly the products whose lower-cased name or code contains the lower-cased term. |
| StockStatus.IndicatorsAgree | frontend/src/components/PointOfSale.jsx:111-115 | Each indicator caption, label and colour names exactly one class of out (stock 0), low (≤ reorder level) or in. The checkout and inventory screens agree. |
| StockStatus.EmptyTermMatches | frontend/src/components/Inventory.jsx:94-95 | The empty search term matches every product. |
| StockStatus.SearchIgnoresCase | frontend/src/components/Inventory.jsx:94-95 | A name or code containing the term matches. Lower-casing the term changes nothing. |
| Inventory.FilteredProducts | frontend/src/components/Inventory.jsx:93-102 | An order-preserving subsequence holding exactly the products passing the search, category and status tests together. |
| Inventory.StatusChoices | frontend/src/components/Inventory.jsx:97-100 | 'In Stock' includes low stock. 'Low Stock' and 'Out of Stock' are disjoint. With stock ≥ 0, each agrees with its badge text. |
| Inventory.NegativeStockHidden | frontend/src/components/Inventory.jsx:97-100 | A product with negative stock is shown only under 'All Status', although its badge may say 'Low Stock'. |
| Inventory.ClearedShowsAll | frontend/src/components/Inventory.jsx:87-91 | After `clearFilters`, the filtered list is the whole list. |
| Inventory.CategoryOptions | frontend/src/components/Inventory.jsx:20 | 'All Categories' followed by the fetched category names, in order. |
| Inventory.CategoryOptionSelects | frontend/src/components/Inventory.jsx:96 | Choosing a category option (with no search) shows exactly the products of that category name. |
| Inventory.HandleDelete | frontend/src/components/Inventory.jsx:75-85 | Unconfirmed: nothing changes. Failed: the list stays and the error banner is set. Succeeded: an order-preserving subsequence without that id. |
| Inventory.DeleteDropsOnlyThatId | frontend/src/components/Inventory.jsx:75-85 | A successful delete shrinks the list by exactly the rows with that id. |
| Inventory.SoldProductStaysListed | frontend/src/components/Inventory.jsx:75-85 | A sold product's confirmed delete is answered with 400. The product stays listed and the banner reports the failure. |
| Dashboard.AssetValueAppend | frontend/src/components/Dashboard.jsx:28 | The asset value of a list is the sum of the asset values of its parts. |
| Dashboard.AssetValueBounds | frontend/src/components/Dashboard.jsx:28 | With no negative stock or price the value is ≥ 0. It is 0 when every stock is 0. |
| Dashboard.StatsOf | frontend/src/components/Dashboard.jsx:27-30 | The four cards: product count, asset value, and the counts of low-stock and out-of-stock products. |
| Dashboard.CountsDisjoint | frontend/src/components/Dashboard.jsx:29-30 | Low and out counts never share a product. Their sum is the number low-or-out, at most the total. |
| Dashboard.CountsFollowLabels | frontend/src/components/Dashboard.jsx:329-333 | Out of stock iff the row label is 'Out of Stock'. For non-negative stock, low stock iff the label is 'Low Stock'. |
| Dashboard.NoneOut | frontend/src/components/Dashboard.jsx:30 | The out-of-stock card is 0 iff no product has stock exactly 0. |
| Dashboard.Recent | frontend/src/components/Dashboard.jsx:33 | The first min(5, n) products, in their original order. |
| Dashboard.RowDot | frontend/src/components/Dashboard.jsx:304-308 | A preview row's dot has the checkout indicator's colour. |

## Left out

- Concurrency and row locks: the model is sequential, and the stock read in `createSale` takes no lock; nothing here claims serialisation between requests.
- The PostgreSQL client, pool, SQL text and `client.release()`: the tables are abstract maps and sequences.
- `generate_transaction_number()`: the transaction number is a parameter of `SalesModel.CreateSale` (an opaque fresh value).
- SalesModel.CreateSale: restores the sale-id counter on rollback, whereas a PostgreSQL serial sequence is not rolled back; ids stay distinct either way.
- Floating-point money: the 16 % tax with `toFixed(2)` rounding and the total on the checkout screen are inputs of `PointOfSale.HandleCheckout`, and prices are integer cents; `parseFloat` of string prices is not modelled.
- `parseInt` leniency: a parsed id or number is abstracted as `Option<int>` (a value, or NaN as None).
- The 'Invalid exclude ID' error of `checkProductCodeExists`: `ProductModel.CodeExists` takes the exclude id already parsed, because its only caller (`updateProduct`) passes an id it has already checked to be a number, and the HTTP handler passes none.
- Storage failures (connection errors and the 500s they lead to) are not modelled; only the errors the models raise themselves are.
- SalesModel.GetSales: the listing reads the `sales_summary` view, whose definition is not part of this model; it is modelled as the sales table itself, one row per sale, and the view's aggregated `items` column is not modelled.
- `getAllProducts` and the `product_stock_status` view: the screens receive `ListedProduct` rows directly.
- `getCategoryById`, `getSupplierById` and the category and supplier HTTP handlers: thin lookups and null-to-404 wrappers.
- `updated_at` timestamps and `created_at` defaults: clock values are not modelled.
- Collation and Unicode: names sort by code point, and lower-casing is ASCII only.
- The duplicate `createSale` nested at backend/src/models/salesModel.js:85-158: it never becomes the function the controller calls.
- React rendering, alerts, console logging, the CSV download and print windows.
- Dashboard.AssetValueAppend: the `|| 0` for a product whose stock or price is not a number cannot arise, because the fields here are integers.
- The dashboard's badge colour strings at frontend/src/components/Dashboard.jsx:322-328: they are the inventory badge's classes with the border written out, and only their text label is modelled.
- The product refetch after a successful checkout and the error banner on a failed one: `PointOfSale.HandleCheckout` returns only the request and the cart.
- PointOfSale.HandleCheckout: the outcome of the post is a parameter, and Inventory.HandleDelete likewise takes the outcome of the delete request and the user's confirmation as parameters.

## Findings

| source | as written | input that shows it | evidently intended | confidence | as-written member | corrected member |
|---|---|---|---|---|---|---|
| backend/src/controllers/productController.js:136-145 with backend/src/models/productModel.js:500-503 | The update handler answers 400 only for messages containing 'Product not found'. The model reports a missing row as 'Product <id> not found', so the handler answers 500. | PUT of product 7, which does not exist, with an otherwise valid body: "Failed to update product: Product 7 not found" becomes 500 | A missing product is a client error: 400 (or 404) | not executed | ProductController.UpdateMissingIs500 | ProductController.UpdateMissingIs400Corrected |
