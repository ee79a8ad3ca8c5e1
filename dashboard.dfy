/** The dashboard: the stock figures computed from the product list and the preview of its
    first rows. */
module Dashboard {
  import opened StockStatus
  import Seqs

  /** The asset value: the sum over the products of stock times unit price, in cents. */
  function AssetValue(products: seq<ListedProduct>): int
    decreases |products|
  {
    if products == [] then 0
    else AssetValue(products[..|products| - 1]) + products[|products| - 1].stock * products[|products| - 1].unitPrice
  }

  /** The value of a list is the sum of the values of its parts. */
  lemma {:induction false} AssetValueAppend(a: seq<ListedProduct>, b: seq<ListedProduct>)
    ensures AssetValue(a + b) == AssetValue(a) + AssetValue(b)
    decreases |b|
  {
    if b == [] {
      assert a + b == a;
    } else {
      var b' := b[..|b| - 1];
      assert (a + b)[..|a + b| - 1] == a + b';
      assert (a + b)[|a + b| - 1] == b[|b| - 1];
      AssetValueAppend(a, b');
    }
  }

  /** With no negative stock or price the value is never negative, and it is zero when every
      product is out of stock. */
  lemma {:induction false} AssetValueBounds(products: seq<ListedProduct>)
    requires forall i :: 0 <= i < |products| ==> products[i].stock >= 0 && products[i].unitPrice >= 0
    ensures AssetValue(products) >= 0
    ensures (forall i :: 0 <= i < |products| ==> products[i].stock == 0) ==> AssetValue(products) == 0
    decreases |products|
  {
    if products != [] {
      AssetValueBounds(products[..|products| - 1]);
    }
  }

  /** Low stock: some stock, but no more than the reorder level. */
  function IsLowStock(p: ListedProduct): bool {
    p.stock > 0 && p.stock <= p.reorderLevel
  }

  /** Out of stock: exactly none. */
  function IsOutOfStock(p: ListedProduct): bool {
    p.stock == 0
  }

  function IsLowOrOut(p: ListedProduct): bool {
    IsLowStock(p) || IsOutOfStock(p)
  }

  /** The four stat cards. */
  datatype Stats = Stats(totalProducts: nat, assetValue: int, lowStock: nat, outOfStock: nat)

  function StatsOf(products: seq<ListedProduct>): (r: Stats)
    ensures r.totalProducts == |products| && r.assetValue == AssetValue(products)
    ensures r.lowStock == Seqs.Count(products, IsLowStock) && r.outOfStock == Seqs.Count(products, IsOutOfStock)
  {
    Stats(|products|, AssetValue(products), Seqs.Count(products, IsLowStock), Seqs.Count(products, IsOutOfStock))
  }

  /** The low-stock and out-of-stock counts never count a product twice: together they are
      the number of products that are low or out, so never more than the total. */
  lemma CountsDisjoint(products: seq<ListedProduct>)
    ensures StatsOf(products).lowStock + StatsOf(products).outOfStock == Seqs.Count(products, IsLowOrOut)
    ensures StatsOf(products).lowStock + StatsOf(products).outOfStock <= StatsOf(products).totalProducts
  {
    Seqs.CountDisjoint(products, IsLowStock, IsOutOfStock, IsLowOrOut);
  }

  /** The counts agree with the row labels: out of stock is the 'Out of Stock' label, and for
      a product with no negative stock low stock is the 'Low Stock' label. */
  lemma CountsFollowLabels(p: ListedProduct)
    ensures IsOutOfStock(p) <==> StatusLabel(p.stock, p.reorderLevel) == "Out of Stock"
    ensures p.stock >= 0 ==> (IsLowStock(p) <==> StatusLabel(p.stock, p.reorderLevel) == "Low Stock")
  {
  }

  /** The out-of-stock card shows 0 exactly when no product has stock 0. */
  lemma NoneOut(products: seq<ListedProduct>)
    ensures StatsOf(products).outOfStock == 0 <==> forall i :: 0 <= i < |products| ==> !IsOutOfStock(products[i])
  {
    Seqs.CountZero(products, IsOutOfStock);
  }

  /** `products.slice(0, 5)`: the first five products, or all of them when there are fewer. */
  function Recent(products: seq<ListedProduct>): (r: seq<ListedProduct>)
    ensures |r| == if |products| < 5 then |products| else 5
    ensures forall i :: 0 <= i < |r| ==> r[i] == products[i]
  {
    if |products| < 5 then products else products[..5]
  }

  /** The dot of a preview row: the colours of the checkout screen's indicator. */
  function RowDot(p: ListedProduct): (color: string)
    ensures color == PosIndicator(p.stock, p.reorderLevel).color
  {
    if p.stock == 0 then "bg-red-500" else if p.stock <= p.reorderLevel then "bg-orange-500" else "bg-emerald-500"
  }
}
