/** The categories table: listing by name, the name requirement on add and update, and the
    guard that keeps a category while products still refer to it. */
module CategoryModel {
  import opened Wrappers
  import opened Db
  import Text
  import Seqs

  /** The request body of an add or update; a missing name is the empty string. */
  datatype CategoryInput = CategoryInput(name: string, description: Option<string>)

  const NameRequired := "Category name is required"
  const InUse := "Cannot delete category with associated products"
  const NotFound := "Category not found"

  /** The products whose category is `id`: the rows the delete guard counts. */
  function Users(products: map<int, Product>, id: int): set<int> {
    set pid | pid in products && products[pid].categoryId == id
  }

  /** The count is positive exactly when some product refers to the category. */
  lemma UsersNonEmpty(products: map<int, Product>, id: int)
    ensures |Users(products, id)| > 0 <==> exists pid :: pid in products && products[pid].categoryId == id
  {
    if exists pid :: pid in products && products[pid].categoryId == id {
      var pid :| pid in products && products[pid].categoryId == id;
      assert pid in Users(products, id);
    } else {
      assert Users(products, id) == {};
    }
  }

  /** `deleteCategory` before the delete: refused while any product refers to the category
      (checked first), then refused when the row is missing. On success, the row removed. */
  function DeleteDecision(products: map<int, Product>, categories: map<int, Category>, id: int): (r: Result<Category, string>)
    ensures r.Ok? <==> id in categories && forall pid :: pid in products ==> products[pid].categoryId != id
    ensures r.Ok? ==> r.value == categories[id]
    ensures (exists pid :: pid in products && products[pid].categoryId == id) ==> r == Err(InUse)
    ensures id !in categories && (forall pid :: pid in products ==> products[pid].categoryId != id) ==> r == Err(NotFound)
  {
    UsersNonEmpty(products, id);
    if |Users(products, id)| > 0 then Err(InUse)
    else if id !in categories then Err(NotFound)
    else Ok(categories[id])
  }

  /** `addCategory`: a falsy name is refused and nothing is inserted; otherwise the row is
      inserted under the next serial id. */
  method AddCategory(db: Database, c: CategoryInput) returns (r: Result<Category, string>)
    requires db.Valid()
    modifies db
    ensures db.Valid()
    ensures c.name == "" ==> r == Err(NameRequired) && db.categories == old(db.categories) && db.nextCategoryId == old(db.nextCategoryId)
    ensures c.name != "" ==>
      && r == Ok(Category(old(db.nextCategoryId), c.name, c.description))
      && db.categories == old(db.categories)[r.value.id := r.value]
      && db.nextCategoryId == old(db.nextCategoryId) + 1
    ensures db.products == old(db.products) && db.suppliers == old(db.suppliers)
    ensures db.sales == old(db.sales) && db.saleItems == old(db.saleItems) && db.logs == old(db.logs)
    ensures db.nextProductId == old(db.nextProductId) && db.nextSupplierId == old(db.nextSupplierId)
    ensures db.nextSaleId == old(db.nextSaleId)
  {
    if c.name == "" {
      return Err(NameRequired);
    }
    // the row goes in under the next serial id and is returned
    var row := Category(db.nextCategoryId, c.name, c.description);
    db.categories := db.categories[row.id := row];
    db.nextCategoryId := db.nextCategoryId + 1;
    return Ok(row);
  }

  /** `updateCategory`: a falsy name is refused; a missing id updates nothing and returns no
      row; otherwise name and description are replaced. */
  method UpdateCategory(db: Database, id: int, c: CategoryInput) returns (r: Result<Option<Category>, string>)
    requires db.Valid()
    modifies db
    ensures db.Valid()
    ensures c.name == "" ==> r == Err(NameRequired) && db.categories == old(db.categories)
    ensures c.name != "" && id !in old(db.categories) ==> r == Ok(None) && db.categories == old(db.categories)
    ensures c.name != "" && id in old(db.categories) ==>
      && r == Ok(Some(Category(id, c.name, c.description)))
      && db.categories == old(db.categories)[id := r.value.value]
    ensures db.products == old(db.products) && db.suppliers == old(db.suppliers)
    ensures db.sales == old(db.sales) && db.saleItems == old(db.saleItems) && db.logs == old(db.logs)
    ensures db.nextProductId == old(db.nextProductId) && db.nextCategoryId == old(db.nextCategoryId)
    ensures db.nextSupplierId == old(db.nextSupplierId) && db.nextSaleId == old(db.nextSaleId)
  {
    if c.name == "" {
      return Err(NameRequired);
    }
    if id !in db.categories {
      return Ok(None);
    }
    // name and description are replaced and the new row is returned
    var row := Category(id, c.name, c.description);
    db.categories := db.categories[id := row];
    return Ok(Some(row));
  }

  /** `deleteCategory`: on success exactly that row is removed; on refusal nothing changes. */
  method DeleteCategory(db: Database, id: int) returns (r: Result<Category, string>)
    requires db.Valid()
    modifies db
    ensures db.Valid()
    ensures r == DeleteDecision(old(db.products), old(db.categories), id)
    ensures r.Ok? ==> db.categories == old(db.categories) - {id}
    ensures r.Err? ==> db.categories == old(db.categories)
    ensures db.products == old(db.products) && db.suppliers == old(db.suppliers)
    ensures db.sales == old(db.sales) && db.saleItems == old(db.saleItems) && db.logs == old(db.logs)
    ensures db.nextProductId == old(db.nextProductId) && db.nextCategoryId == old(db.nextCategoryId)
    ensures db.nextSupplierId == old(db.nextSupplierId) && db.nextSaleId == old(db.nextSaleId)
  {
    r := DeleteDecision(db.products, db.categories, id);
    if r.Ok? {
      // the row goes, and is returned
      db.categories := db.categories - {id};
    }
  }

  /** A category that a product refers to is in the table and survives a delete attempt, and
      references stay valid after any delete that succeeds. */
  lemma DeleteKeepsReferences(products: map<int, Product>, categories: map<int, Category>,
                              suppliers: map<int, Supplier>, id: int)
    requires ReferencesValid(products, categories, suppliers)
    ensures (exists pid :: pid in products && products[pid].categoryId == id) ==> DeleteDecision(products, categories, id) == Err(InUse)
    ensures (exists pid :: pid in products && products[pid].categoryId == id) ==> id in categories
    ensures DeleteDecision(products, categories, id).Ok? ==> ReferencesValid(products, categories - {id}, suppliers)
  {
    if DeleteDecision(products, categories, id).Ok? {
      forall pid | pid in products ensures products[pid].categoryId in categories - {id} {
        assert products[pid].categoryId != id;
      }
    }
  }

  // ---------------------------------------------------------------------------------------
  // Listing

  /** The listing order: by category name. */
  predicate ByName(a: Category, b: Category) {
    Text.StrLe(a.name, b.name)
  }

  lemma ByNameIsPreorder()
    ensures Seqs.Total(ByName) && Seqs.Transitive(ByName)
  {
    forall a: Category, b: Category ensures ByName(a, b) || ByName(b, a) {
      Text.StrLeTotal(a.name, b.name);
    }
    forall a: Category, b: Category, c: Category | ByName(a, b) && ByName(b, c) ensures ByName(a, c) {
      Text.StrLeTransitive(a.name, b.name, c.name);
    }
  }

  /** Every row of the table exactly once: the order of a scan before sorting. */
  ghost predicate Enumerates(scan: seq<Category>, categories: map<int, Category>) {
    multiset(scan) == multiset(categories.Values)
  }

  /** `getAllCategories`: the rows of the scan ordered by name. */
  function GetAllCategories(scan: seq<Category>): (r: seq<Category>)
    ensures multiset(r) == multiset(scan)
    ensures Seqs.SortedBy(r, ByName)
  {
    ByNameIsPreorder();
    Seqs.SortBySorted(scan, ByName);
    Seqs.SortBy(scan, ByName)
  }

  /** The listing holds exactly the table's rows. */
  lemma ListingIsTable(scan: seq<Category>, categories: map<int, Category>, c: Category)
    requires Enumerates(scan, categories)
    ensures c in GetAllCategories(scan) <==> c in categories.Values
  {
    var r := GetAllCategories(scan);
    assert c in r <==> c in multiset(r);
    assert c in categories.Values <==> c in multiset(categories.Values);
  }
}
