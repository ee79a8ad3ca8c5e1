/** The HTTP layer over the product model: which outcome becomes which status code. Errors
    are classified by looking for substrings in the model's error message. */
module ProductController {
  import opened Wrappers
  import opened Db
  import Text
  import opened ProductModel

  /** What the JSON body carries. */
  datatype Body = Row(product: Product) | Message(text: string) | Deleted(product: Product) | Flag(taken: bool)

  datatype Response = Response(status: int, body: Body)

  /** The messages `addProduct`'s handler answers with 400. */
  predicate AddClientError(m: string) {
    || Text.Contains(m, "Missing required fields")
    || Text.Contains(m, "Invalid category_id")
    || Text.Contains(m, "Invalid supplier_id")
    || Text.Contains(m, "Product code")
  }

  /** The messages `updateProduct`'s handler answers with 400: those of add, and 'Product not found'. */
  predicate UpdateClientError(m: string) {
    AddClientError(m) || Text.Contains(m, "Product not found")
  }

  /** The messages `deleteProduct`'s handler answers with 400. */
  predicate DeleteClientError(m: string) {
    Text.Contains(m, "Product not found") || Text.Contains(m, "Cannot delete")
  }

  /** `addProduct` handler: 201 with the row, 400 with the message for a recognised client
      error, otherwise 500 with the message wrapped once more. */
  function AddResponse(r: Result<Product, string>): (resp: Response)
    ensures resp.status in {201, 400, 500}
    ensures resp.status == 201 <==> r.Ok?
    ensures r.Err? ==> (resp.status == 400 <==> AddClientError(r.error))
  {
    match r
    case Ok(row) => Response(201, Row(row))
    case Err(m) =>
      if AddClientError(m) then Response(400, Message(m))
      else Response(500, Message("Failed to add product: " + m))
  }

  /** `updateProduct` handler, as written. The 404 branch for a missing row cannot be reached,
      since the model throws instead of returning nothing. */
  function UpdateResponse(r: Result<Product, string>): (resp: Response)
    ensures resp.status in {200, 400, 500}
    ensures resp.status == 200 <==> r.Ok?
    ensures r.Err? ==> (resp.status == 400 <==> UpdateClientError(r.error))
  {
    match r
    case Ok(row) => Response(200, Row(row))
    case Err(m) =>
      if UpdateClientError(m) then Response(400, Message(m))
      else Response(500, Message("Failed to update product: " + m))
  }

  /** `updateProduct` handler with the not-found clause matching the message the model
      actually produces ("Product <id> not found"). */
  function UpdateResponseCorrected(r: Result<Product, string>): (resp: Response)
    ensures resp.status in {200, 400, 500}
    ensures resp.status == 200 <==> r.Ok?
    ensures r.Err? ==> (resp.status == 400 <==> UpdateClientError(r.error) || Text.Contains(r.error, "not found"))
  {
    match r
    case Ok(row) => Response(200, Row(row))
    case Err(m) =>
      if UpdateClientError(m) || Text.Contains(m, "not found") then Response(400, Message(m))
      else Response(500, Message("Failed to update product: " + m))
  }

  /** `deleteProduct` handler: 200 with the removed row, 400 for a recognised client error, otherwise 500. */
  function DeleteResponse(r: Result<Product, string>): (resp: Response)
    ensures resp.status in {200, 400, 500}
    ensures resp.status == 200 <==> r.Ok?
    ensures r.Err? ==> (resp.status == 400 <==> DeleteClientError(r.error))
  {
    match r
    case Ok(row) => Response(200, Deleted(row))
    case Err(m) =>
      if DeleteClientError(m) then Response(400, Message(m))
      else Response(500, Message("Failed to delete product: " + m))
  }

  /** `getProductById` handler: 200 with the row, 404 when there is none, 500 for any model error. */
  function GetResponse(r: Result<Option<Product>, string>): (resp: Response)
    ensures resp.status == 500 <==> r.Err?
    ensures resp.status == 404 <==> r == Ok(None)
    ensures resp.status == 200 <==> r.Ok? && r.value.Some?
  {
    match r
    case Err(m) => Response(500, Message("Failed to fetch product: " + m))
    case Ok(None) => Response(404, Message(ProductNotFound))
    case Ok(Some(row)) => Response(200, Row(row))
  }

  /** `checkProductCode` handler: an empty code is refused before the model is asked, and the
      model is never given an id to exclude. */
  function CheckCodeResponse(products: map<int, Product>, code: string): (resp: Response)
    ensures code == "" ==> resp == Response(400, Message("Product code is required"))
    ensures code != "" ==>
      resp == Response(200, Flag(exists id :: id in products && products[id].code == code))
  {
    if code == "" then Response(400, Message("Product code is required"))
    else match CodeExists(products, code, None)
      case Ok(taken) => Response(200, Flag(taken))
      case Err(m) => Response(500, Message("Failed to check product code: " + m))
  }

  // ---------------------------------------------------------------------------------------
  // What each request ends in

  /** Every error `addProduct` can raise is one the handler answers with 400; success is 201. */
  lemma AddOutcomes(products: map<int, Product>, categories: map<int, Category>,
                    suppliers: map<int, Supplier>, p: ProductInput, newId: int)
    ensures var d := AddDecision(products, categories, suppliers, p, newId);
      AddResponse(match d case Ok(row) => Ok(row) case Err(e) => Err("Failed to add product: " + e)).status
        == (if d.Ok? then 201 else 400)
  {
    var d := AddDecision(products, categories, suppliers, p, newId);
    if d.Err? {
      ValidateClientErrors(products, categories, suppliers, p, None, "Failed to add product: ");
    }
  }

  /** Under any prefix, every message `Validate` can produce is an add-client error. */
  lemma ValidateClientErrors(products: map<int, Product>, categories: map<int, Category>,
                             suppliers: map<int, Supplier>, p: ProductInput, exclude: Option<int>, prefix: string)
    requires Validate(products, categories, suppliers, p, exclude).Err?
    ensures AddClientError(prefix + Validate(products, categories, suppliers, p, exclude).error)
  {
    var e := Validate(products, categories, suppliers, p, exclude).error;
    if e == MissingFields {
      Text.PhraseAfter(prefix, "Missing required fields", ": product_code, product_name, category_id, supplier_id, unit_price");
    } else if e == NonNumericIds {
      Text.PhraseAfter(prefix, "Invalid category_id", " or supplier_id: must be numbers");
    } else if e == UnknownCategory(p.categoryId) {
      Text.PhraseAfter(prefix, "Invalid category_id", ": " + p.categoryId.Render() + " does not exist");
    } else if e == UnknownSupplier(p.supplierId) {
      Text.PhraseAfter(prefix, "Invalid supplier_id", ": " + p.supplierId.Render() + " does not exist");
    } else if e == DuplicateCode(p.code) {
      Text.PhraseAfter(prefix, "Product code", " " + p.code + " already exists");
    } else {
      // the code check cannot fail: the required-field check already ruled out an empty code
      assert false;
    }
  }

  /** A validation error on update is answered with 400, as on add. */
  lemma UpdateValidationIs400(products: map<int, Product>, categories: map<int, Category>,
                              suppliers: map<int, Supplier>, id: IdParam, p: ProductInput)
    requires id.value.Some? && Validate(products, categories, suppliers, p, id.value).Err?
    ensures UpdateResponse(Err("Failed to update product: " + UpdateDecision(products, categories, suppliers, id, p).error)).status == 400
  {
    ValidateClientErrors(products, categories, suppliers, p, id.value, "Failed to update product: ");
  }

  /** As written, updating the missing product 7 with an otherwise valid body is answered with
      500: "Product 7 not found" contains none of the substrings the handler looks for. */
  lemma UpdateMissingIs500(products: map<int, Product>, categories: map<int, Category>,
                           suppliers: map<int, Supplier>, p: ProductInput)
    requires 7 !in products && Validate(products, categories, suppliers, p, Some(7)).Ok?
    ensures var d := UpdateDecision(products, categories, suppliers, IdParam("7", Some(7)), p);
      d.Err? && UpdateResponse(Err("Failed to update product: " + d.error)).status == 500
  {
    var a, c := "Failed to update product: ", "roduct " + "7" + " not found";
    assert "Failed to update product: " + UpdateNotFound(IdParam("7", Some(7))) == a + ['P'] + c by {
      assert "Product " == ['P'] + "roduct ";
    }
    NotFound7NoCapitals(a, c);
    NotFound7NoProductPhrase(a, c);
  }

  /** The capitals 'M' and 'I' do not occur in "Failed to update product: Product 7 not found",
      so neither does any phrase starting with them. */
  lemma NotFound7NoCapitals(a: string, c: string)
    requires a == "Failed to update product: " && c == "roduct " + "7" + " not found"
    ensures !Text.Contains(a + ['P'] + c, "Missing required fields")
    ensures !Text.Contains(a + ['P'] + c, "Invalid category_id")
    ensures !Text.Contains(a + ['P'] + c, "Invalid supplier_id")
  {
    var m := a + ['P'] + c;
    assert 'M' !in m && 'I' !in m;
    Text.FirstCharAbsent(m, "Missing required fields");
    Text.FirstCharAbsent(m, "Invalid category_id");
    Text.FirstCharAbsent(m, "Invalid supplier_id");
  }

  /** In "Failed to update product: Product 7 not found" the only 'P' starts "Product 7", which
      is neither "Product code" nor "Product not found". */
  lemma NotFound7NoProductPhrase(a: string, c: string)
    requires a == "Failed to update product: " && c == "roduct " + "7" + " not found"
    ensures !Text.Contains(a + ['P'] + c, "Product code")
    ensures !Text.Contains(a + ['P'] + c, "Product not found")
  {
    assert 'P' !in a && 'P' !in c && (a + ['P'] + c)[34] == '7';
    Text.SingleCandidate(a, c, "Product code", 8);
    Text.SingleCandidate(a, c, "Product not found", 8);
  }

  /** With the corrected handler, updating any missing product with an otherwise valid body is answered with 400. */
  lemma UpdateMissingIs400Corrected(products: map<int, Product>, categories: map<int, Category>,
                                    suppliers: map<int, Supplier>, id: IdParam, p: ProductInput)
    requires id.value.Some? && id.value.value !in products
    requires Validate(products, categories, suppliers, p, id.value).Ok?
    ensures var d := UpdateDecision(products, categories, suppliers, id, p);
      d.Err? && UpdateResponseCorrected(Err("Failed to update product: " + d.error)).status == 400
  {
    var head := "Failed to update product: " + "Product " + id.text + " ";
    assert "Failed to update product: " + UpdateNotFound(id) == head + "not found" + "";
    Text.ContainsWitness(head, "not found", "");
  }

  /** The corrected handler agrees with the original on every message that does not mention "not found". */
  lemma CorrectionIsConservative(r: Result<Product, string>)
    requires r.Err? ==> !Text.Contains(r.error, "not found")
    ensures UpdateResponseCorrected(r) == UpdateResponse(r)
  {
  }

  /** Delete: 200 on success, 400 when the product was sold or is missing, 500 for a non-numeric id. */
  lemma DeleteOutcomes(products: map<int, Product>, saleItems: seq<SaleItem>, id: IdParam)
    ensures var d := DeleteDecision(products, saleItems, id);
      DeleteResponse(match d case Ok(row) => Ok(row) case Err(e) => Err("Failed to delete product: " + e)).status
        == (if d.Ok? then 200 else if id.value.Some? then 400 else 500)
  {
    var d := DeleteDecision(products, saleItems, id);
    if d.Err? {
      if id.value.None? {
        InvalidIdUnrecognisedOnDelete();
      } else if d.error == AlreadySold {
        Text.PhraseAfter("Failed to delete product: ", "Cannot delete", " product that has been sold");
      } else {
        assert d.error == ProductNotFound;
        Text.PhraseAfter("Failed to delete product: ", "Product not found", "");
        assert "Product not found" + "" == "Product not found";
      }
    }
  }

  /** "Failed to delete product: Invalid product ID: must be a number" mentions neither phrase the delete handler looks for. */
  lemma InvalidIdUnrecognisedOnDelete()
    ensures !DeleteClientError("Failed to delete product: " + InvalidProductId)
  {
    var m := "Failed to delete product: " + InvalidProductId;
    assert 'P' !in m && 'C' !in m;
    Text.FirstCharAbsent(m, "Product not found");
    Text.FirstCharAbsent(m, "Cannot delete");
  }

  /** Fetching one product: 500 for a non-numeric id, 404 for a missing row, 200 otherwise. */
  lemma GetOutcomes(db: Database, id: IdParam)
    ensures GetResponse(GetProductById(db, id)).status ==
      (if id.value.None? then 500 else if id.value.value in db.products then 200 else 404)
  {
  }

  /** Checking a product code never fails with 500: the only model error is ruled out by the handler's own check. */
  lemma CheckCodeNever500(products: map<int, Product>, code: string)
    ensures CheckCodeResponse(products, code).status in {200, 400}
  {
  }
}
