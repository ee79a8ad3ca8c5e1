/** The inventory screen: the three filters over the product list, the way they are cleared,
    the category choices, and the list update after a delete. */
module Inventory {
  import opened Wrappers
  import opened StockStatus
  import Seqs
  import Db
  import ProductModel
  import ProductController

  const AllCategories := "All Categories"
  const AllStatus := "All Status"

  /** The search box, the category choice and the status choice. */
  datatype Filters = Filters(search: string, category: string, status: string)

  /** The category choice: 'All Categories' passes every product, any other choice only the
      products whose category name is exactly that choice. */
  predicate MatchesCategory(p: ListedProduct, category: string) {
    category == AllCategories || p.categoryName == Some(category)
  }

  /** The status choice: any stock for 'In Stock', stock above zero up to the reorder level for
      'Low Stock', exactly zero for 'Out of Stock'; a choice not in the list matches nothing. */
  predicate MatchesStatus(p: ListedProduct, status: string) {
    || status == AllStatus
    || (status == "In Stock" && p.stock > 0)
    || (status == "Low Stock" && p.stock > 0 && p.stock <= p.reorderLevel)
    || (status == "Out of Stock" && p.stock == 0)
  }

  predicate Shown(p: ListedProduct, f: Filters) {
    MatchesSearch(p, f.search) && MatchesCategory(p, f.category) && MatchesStatus(p, f.status)
  }

  function ShownBy(f: Filters): ListedProduct -> bool {
    (p: ListedProduct) => Shown(p, f)
  }

  /** `filteredProducts`: the products passing all three filters, in listing order. */
  function FilteredProducts(products: seq<ListedProduct>, f: Filters): (r: seq<ListedProduct>)
    ensures Seqs.Subsequence(r, products)
    ensures forall p :: p in r <==>
      p in products && MatchesSearch(p, f.search) && MatchesCategory(p, f.category) && MatchesStatus(p, f.status)
  {
    Seqs.FilterMembers(products, ShownBy(f));
    Seqs.FilterSubsequence(products, ShownBy(f));
    Seqs.Filter(products, ShownBy(f))
  }

  /** 'In Stock' includes the low-stock products; 'Low Stock' and 'Out of Stock' never share
      a product; for a product with stock, 'Low Stock' is exactly the 'Low Stock' badge. */
  lemma StatusChoices(p: ListedProduct)
    ensures MatchesStatus(p, "Low Stock") ==> MatchesStatus(p, "In Stock")
    ensures !(MatchesStatus(p, "Low Stock") && MatchesStatus(p, "Out of Stock"))
    ensures MatchesStatus(p, "Out of Stock") <==> StatusLabel(p.stock, p.reorderLevel) == "Out of Stock"
    ensures p.stock >= 0 ==> (MatchesStatus(p, "Low Stock") <==> StatusLabel(p.stock, p.reorderLevel) == "Low Stock")
  {
  }

  /** A product listed with negative stock is shown only under 'All Status', although at or
      below its reorder level it wears the 'Low Stock' badge. */
  lemma NegativeStockHidden(p: ListedProduct, status: string)
    requires p.stock < 0 && status != AllStatus
    ensures !MatchesStatus(p, status)
    ensures p.stock <= p.reorderLevel ==> StatusLabel(p.stock, p.reorderLevel) == "Low Stock"
  {
  }

  /** `clearFilters`. */
  const Cleared := Filters("", AllCategories, AllStatus)

  /** With the filters cleared every product is shown, in listing order. */
  lemma ClearedShowsAll(products: seq<ListedProduct>)
    ensures FilteredProducts(products, Cleared) == products
  {
    forall i | 0 <= i < |products| ensures ShownBy(Cleared)(products[i]) {
      EmptyTermMatches(products[i]);
    }
    Seqs.FilterAll(products, ShownBy(Cleared));
  }

  /** The category choices: 'All Categories' followed by the category names as fetched. */
  function CategoryOptions(categories: seq<Db.Category>): (r: seq<string>)
    ensures |r| == |categories| + 1 && r[0] == AllCategories
    ensures forall i :: 0 <= i < |categories| ==> r[i + 1] == categories[i].name
  {
    [AllCategories] + seq(|categories|, i requires 0 <= i < |categories| => categories[i].name)
  }

  /** Choosing the option of a category (whose name is not itself 'All Categories') with no
      search and any status shows exactly the products of that category name. */
  lemma CategoryOptionSelects(products: seq<ListedProduct>, categories: seq<Db.Category>, i: int, p: ListedProduct)
    requires 0 < i < |CategoryOptions(categories)|
    requires categories[i - 1].name != AllCategories
    ensures var f := Filters("", CategoryOptions(categories)[i], AllStatus);
      p in FilteredProducts(products, f) <==> p in products && p.categoryName == Some(categories[i - 1].name)
  {
    EmptyTermMatches(p);
  }

  /** The list and the error banner after a delete. */
  datatype AfterDelete = AfterDelete(products: seq<ListedProduct>, error: Option<string>)

  const DeleteFailed := "Failed to delete product. Check backend."

  function Other(id: int): ListedProduct -> bool {
    (p: ListedProduct) => p.productId != id
  }

  /** `handleDelete`: when the user confirms and the delete succeeds the product with that id
      leaves the list; on refusal or failure the list stays as it was, and a failure sets the
      error banner, which is otherwise left as it was. */
  function HandleDelete(products: seq<ListedProduct>, error: Option<string>, id: int, confirmed: bool, deleted: bool): (r: AfterDelete)
    ensures !confirmed ==> r == AfterDelete(products, error)
    ensures confirmed && !deleted ==> r == AfterDelete(products, Some(DeleteFailed))
    ensures confirmed && deleted ==> r.error == error && Seqs.Subsequence(r.products, products)
    ensures confirmed && deleted ==> forall p :: p in r.products <==> p in products && p.productId != id
  {
    Seqs.FilterMembers(products, Other(id));
    Seqs.FilterSubsequence(products, Other(id));
    if !confirmed then AfterDelete(products, error)
    else if deleted then AfterDelete(Seqs.Filter(products, Other(id)), error)
    else AfterDelete(products, Some(DeleteFailed))
  }

  /** A successful delete leaves every other product in its place: the list shrinks by
      exactly the rows with that id. */
  lemma {:induction false} DeleteDropsOnlyThatId(products: seq<ListedProduct>, error: Option<string>, id: int)
    ensures |HandleDelete(products, error, id, true, true).products| + Seqs.Count(products, (p: ListedProduct) => p.productId == id) == |products|
  {
    Seqs.FilterComplement(products, Other(id), (p: ListedProduct) => p.productId == id);
  }

  /** A product that has been sold stays on the list when the user confirms its delete: the
      server answers 400, the request fails, and the banner reports it. */
  lemma SoldProductStaysListed(products: seq<ListedProduct>, error: Option<string>,
                               table: map<int, Db.Product>, saleItems: seq<Db.SaleItem>,
                               id: ProductModel.IdParam, i: int)
    requires id.value.Some? && 0 <= i < |saleItems| && saleItems[i].productId == id.value.value
    ensures var d := ProductModel.DeleteDecision(table, saleItems, id);
      var status := ProductController.DeleteResponse(Err("Failed to delete product: " + d.error)).status;
      && d.Err? && status == 400
      && HandleDelete(products, error, id.value.value, true, status == 200) == AfterDelete(products, Some(DeleteFailed))
  {
    ProductModel.DeleteSoldRefused(table, saleItems, id, i);
    ProductController.DeleteOutcomes(table, saleItems, id);
  }
}
