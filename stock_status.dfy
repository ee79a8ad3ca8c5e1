/** What the screens know about a product: a row of the `product_stock_status` view, the
    out / low / in classification they all draw from the stock and reorder level, and the
    name-or-code search both the checkout and the inventory screens apply. */
module StockStatus {
  import opened Wrappers
  import Text

  /** A product as the screens receive it (price in cents). The category name is None when
      the product's category has no row. */
  datatype ListedProduct = ListedProduct(
    productId: int, code: string, name: string, categoryName: Option<string>,
    unitPrice: int, stock: int, reorderLevel: int)

  /** The three classes, decided in this order on every screen: exactly zero first, then at or
      below the reorder level. */
  datatype Level = Out | Low | In

  function LevelOf(stock: int, reorderLevel: int): Level {
    if stock == 0 then Out else if stock <= reorderLevel then Low else In
  }

  /** A coloured dot with a short label. */
  datatype Indicator = Indicator(color: string, caption: string)

  /** `getStockIndicator` of the checkout screen. */
  function PosIndicator(stock: int, reorderLevel: int): Indicator {
    if stock == 0 then Indicator("bg-red-500", "Out")
    else if stock <= reorderLevel then Indicator("bg-orange-500", "Low")
    else Indicator("bg-emerald-500", "In")
  }

  /** `getStockIndicator` of the inventory screen. */
  function InventoryIndicator(stock: int, reorderLevel: int): Indicator {
    if stock == 0 then Indicator("bg-red-500", "Critical")
    else if stock <= reorderLevel then Indicator("bg-orange-500", "Low")
    else Indicator("bg-emerald-500", "Good")
  }

  /** `getStatusColor` of the inventory screen: the classes of the status badge. */
  function StatusColor(stock: int, reorderLevel: int): string {
    if stock == 0 then "bg-red-50 text-red-700 border-red-200"
    else if stock <= reorderLevel then "bg-orange-50 text-orange-700 border-orange-200"
    else "bg-emerald-50 text-emerald-700 border-emerald-200"
  }

  /** The badge text of an inventory row and of a dashboard preview row. */
  function StatusLabel(stock: int, reorderLevel: int): string {
    if stock == 0 then "Out of Stock" else if stock <= reorderLevel then "Low Stock" else "In Stock"
  }

  /** Every indicator, colour and label names the class `LevelOf` assigns, each class by a
      different text: the screens can never disagree on a product, and the text alone tells
      the class. */
  lemma IndicatorsAgree(stock: int, reorderLevel: int)
    ensures var l := LevelOf(stock, reorderLevel);
      && (l == Out <==> stock == 0)
      && (l == Low <==> stock != 0 && stock <= reorderLevel)
      && (l == In <==> stock != 0 && stock > reorderLevel)
      && (PosIndicator(stock, reorderLevel).caption == "Out" <==> l == Out)
      && (PosIndicator(stock, reorderLevel).caption == "Low" <==> l == Low)
      && (PosIndicator(stock, reorderLevel).caption == "In" <==> l == In)
      && (InventoryIndicator(stock, reorderLevel).caption == "Critical" <==> l == Out)
      && (InventoryIndicator(stock, reorderLevel).caption == "Low" <==> l == Low)
      && (InventoryIndicator(stock, reorderLevel).caption == "Good" <==> l == In)
      && (StatusLabel(stock, reorderLevel) == "Out of Stock" <==> l == Out)
      && (StatusLabel(stock, reorderLevel) == "Low Stock" <==> l == Low)
      && (StatusLabel(stock, reorderLevel) == "In Stock" <==> l == In)
      && PosIndicator(stock, reorderLevel).color == InventoryIndicator(stock, reorderLevel).color
      && (StatusColor(stock, reorderLevel) == "bg-red-50 text-red-700 border-red-200" <==> l == Out)
  {
  }

  /** The search: the lower-cased name or the lower-cased code contains the lower-cased term. */
  predicate MatchesSearch(p: ListedProduct, term: string) {
    Text.Contains(Text.ToLower(p.name), Text.ToLower(term)) || Text.Contains(Text.ToLower(p.code), Text.ToLower(term))
  }

  /** The empty search term matches every product. */
  lemma EmptyTermMatches(p: ListedProduct)
    ensures MatchesSearch(p, "")
  {
    assert Text.ToLower("") == "";
    Text.ContainsEmpty(Text.ToLower(p.name));
  }

  /** The search ignores case: a name or code holding the term exactly matches, and the term
      may be given in any case. */
  lemma SearchIgnoresCase(p: ListedProduct, term: string)
    ensures Text.Contains(p.name, term) || Text.Contains(p.code, term) ==> MatchesSearch(p, term)
    ensures MatchesSearch(p, Text.ToLower(term)) == MatchesSearch(p, term)
  {
    Text.ContainsLower(p.name, term);
    Text.ContainsLower(p.code, term);
    Text.ToLowerIdempotent(term);
  }
}
