/** The checkout screen: the cart, kept as a list of lines each holding the product as it was
    listed when first added and the quantity; the subtotal; the sale request the cart is
    turned into; and the product search. */
module PointOfSale {
  import opened Wrappers
  import opened StockStatus
  import Seqs
  import SalesModel
  import SalesController
  import Db

  /** `{ ...product, quantity }`: the listed product and how many of it are in the cart. */
  datatype CartLine = CartLine(product: ListedProduct, quantity: int)

  type Cart = seq<CartLine>

  function IdOf(line: CartLine): int {
    line.product.productId
  }

  /** No two lines name the same product and every quantity is at least 1. */
  ghost predicate WellFormed(cart: Cart) {
    && (forall i, j :: 0 <= i < j < |cart| ==> IdOf(cart[i]) != IdOf(cart[j]))
    && (forall i :: 0 <= i < |cart| ==> cart[i].quantity >= 1)
  }

  /** A line holds no more than its product's listed stock, except that a product listed
      with no stock may still sit in the cart once. */
  ghost predicate WithinStock(cart: Cart) {
    forall i :: 0 <= i < |cart| ==> cart[i].quantity <= cart[i].product.stock || cart[i].quantity == 1
  }

  /** The lookup `addToCart` starts with: the first line naming the product. */
  function Find(cart: Cart, id: int): (r: Option<nat>)
    ensures r.Some? ==> r.value < |cart| && IdOf(cart[r.value]) == id
    ensures r.Some? ==> forall j :: 0 <= j < r.value ==> IdOf(cart[j]) != id
    ensures r.None? <==> forall i :: 0 <= i < |cart| ==> IdOf(cart[i]) != id
    decreases |cart|
  {
    if cart == [] then None
    else if IdOf(cart[0]) == id then Some(0)
    else match Find(cart[1..], id)
      case None => None
      case Some(k) => Some(k + 1)
  }

  /** The cart with one more of the named product and every other line as it was. */
  function Increment(cart: Cart, id: int): (r: Cart)
    ensures |r| == |cart|
    ensures forall i :: 0 <= i < |cart| ==> r[i].product == cart[i].product
    ensures forall i :: 0 <= i < |cart| ==>
      r[i].quantity == if IdOf(cart[i]) == id then cart[i].quantity + 1 else cart[i].quantity
  {
    seq(|cart|, i requires 0 <= i < |cart| =>
      if IdOf(cart[i]) == id then cart[i].(quantity := cart[i].quantity + 1) else cart[i])
  }

  /** `addToCart`: a product not yet in the cart is appended with quantity 1 whatever its
      stock; one already there gains 1 only while its quantity is below the stock of the
      product as now listed, and otherwise the cart is left as it is (the alert). */
  function AddToCart(cart: Cart, p: ListedProduct): (r: Cart)
    ensures Find(cart, p.productId).None? ==> r == cart + [CartLine(p, 1)]
    ensures Find(cart, p.productId).Some? ==> var q := cart[Find(cart, p.productId).value].quantity;
      && (q < p.stock ==> r == Increment(cart, p.productId))
      && (q >= p.stock ==> r == cart)
  {
    match Find(cart, p.productId)
    case None => cart + [CartLine(p, 1)]
    case Some(i) => if cart[i].quantity < p.stock then Increment(cart, p.productId) else cart
  }

  /** The test `removeFromCart` keeps a line by: it names another product. */
  function Other(id: int): CartLine -> bool {
    (l: CartLine) => IdOf(l) != id
  }

  /** The lines naming the product. */
  function Named(id: int): CartLine -> bool {
    (l: CartLine) => IdOf(l) == id
  }

  /** `removeFromCart`: the lines naming other products, in their order; exactly the lines
      naming the product are dropped. */
  function RemoveFromCart(cart: Cart, id: int): (r: Cart)
    ensures Seqs.Subsequence(r, cart)
    ensures forall l :: l in r <==> l in cart && IdOf(l) != id
    ensures |r| + Seqs.Count(cart, Named(id)) == |cart|
  {
    Seqs.FilterComplement(cart, Other(id), Named(id));
    Seqs.FilterMembers(cart, Other(id));
    Seqs.FilterSubsequence(cart, Other(id));
    Seqs.Filter(cart, Other(id))
  }

  /** The new quantity: q + delta, capped at the stock and then raised to at least 1. */
  function Clamp(q: int, delta: int, stock: int): (r: int)
    ensures r >= 1
    ensures r <= stock || r == 1
    ensures 1 <= q + delta <= stock ==> r == q + delta
  {
    var m := if q + delta < stock then q + delta else stock;
    if 1 < m then m else 1
  }

  /** The lines after the quantity map, before the `quantity > 0` filter. */
  function Requantified(cart: Cart, id: int, delta: int): (r: Cart)
    ensures |r| == |cart|
    ensures forall i :: 0 <= i < |cart| ==> r[i].product == cart[i].product
    ensures forall i :: 0 <= i < |cart| ==>
      r[i].quantity == if IdOf(cart[i]) == id then Clamp(cart[i].quantity, delta, cart[i].product.stock) else cart[i].quantity
  {
    seq(|cart|, i requires 0 <= i < |cart| =>
      if IdOf(cart[i]) == id then cart[i].(quantity := Clamp(cart[i].quantity, delta, cart[i].product.stock))
      else cart[i])
  }

  function Positive(l: CartLine): bool {
    l.quantity > 0
  }

  /** `updateQuantity`: the named line's quantity clamped between 1 and the stock it was
      listed with; then lines with no quantity are dropped. */
  function UpdateQuantity(cart: Cart, id: int, delta: int): Cart {
    Seqs.Filter(Requantified(cart, id, delta), Positive)
  }

  /** On a well-formed cart the filter of `updateQuantity` never drops a line: the named
      line gets the clamped quantity and every other line is unchanged. */
  lemma UpdateKeepsLines(cart: Cart, id: int, delta: int)
    requires WellFormed(cart)
    ensures var r := UpdateQuantity(cart, id, delta);
      && |r| == |cart|
      && (forall i :: 0 <= i < |cart| ==> r[i].product == cart[i].product)
      && (forall i :: 0 <= i < |cart| && IdOf(cart[i]) == id ==>
            r[i].quantity == Clamp(cart[i].quantity, delta, cart[i].product.stock))
      && (forall i :: 0 <= i < |cart| && IdOf(cart[i]) != id ==> r[i] == cart[i])
  {
    var m := Requantified(cart, id, delta);
    Seqs.FilterAll(m, Positive);
  }

  /** The subtotal the screen shows: unit price times quantity, summed over the lines. */
  function Subtotal(cart: Cart): int
    decreases |cart|
  {
    if cart == [] then 0
    else Subtotal(cart[..|cart| - 1]) + cart[|cart| - 1].product.unitPrice * cart[|cart| - 1].quantity
  }

  /** The items of the checkout request: product id, quantity and unit price per line, in cart
      order. No code or name is sent, so the transaction takes both from the product row. */
  function Payload(cart: Cart): (r: seq<SalesModel.SaleLine>)
    ensures |r| == |cart|
    ensures forall i :: 0 <= i < |cart| ==>
      r[i] == SalesModel.SaleLine(IdOf(cart[i]), cart[i].quantity, cart[i].product.unitPrice, "", "")
  {
    seq(|cart|, i requires 0 <= i < |cart| =>
      SalesModel.SaleLine(IdOf(cart[i]), cart[i].quantity, cart[i].product.unitPrice, "", ""))
  }

  /** The subtotal the server computes from the payload is the subtotal the screen shows. */
  lemma {:induction false} PayloadSubtotal(cart: Cart)
    ensures SalesController.Subtotal(Payload(cart)) == Subtotal(cart)
    decreases |cart|
  {
    if cart != [] {
      var init := cart[..|cart| - 1];
      PayloadSubtotal(init);
      assert Payload(cart)[..|cart| - 1] == Payload(init);
    }
  }

  /** The body `handleCheckout` posts: the payload, the total and tax as computed on screen
      (opaque here), and the current time as sale date. */
  function Request(cart: Cart, totalAmount: int, taxAmount: int, now: int): (r: SalesController.SaleRequest)
    ensures r.items == SalesController.Lines(Payload(cart)) && r.saleDate == Some(now)
    ensures r.totalAmount == totalAmount && r.taxAmount == taxAmount
  {
    SalesController.SaleRequest(SalesController.Lines(Payload(cart)), totalAmount, Some(now), taxAmount)
  }

  /** What `handleCheckout` does: the request it posts, if any, and the cart afterwards. */
  datatype Checkout = Checkout(posted: Option<SalesController.SaleRequest>, cartAfter: Cart)

  /** `handleCheckout`: an empty cart posts nothing; otherwise the request is posted and the
      cart is emptied only when the post succeeds. */
  function HandleCheckout(cart: Cart, totalAmount: int, taxAmount: int, now: int, postSucceeded: bool): (r: Checkout)
    ensures cart == [] ==> r == Checkout(None, cart)
    ensures cart != [] ==> r.posted == Some(Request(cart, totalAmount, taxAmount, now))
    ensures cart != [] ==> (r.cartAfter == [] <==> postSucceeded) && (!postSucceeded ==> r.cartAfter == cart)
  {
    if cart == [] then Checkout(None, cart)
    else Checkout(Some(Request(cart, totalAmount, taxAmount, now)), if postSucceeded then [] else cart)
  }

  /** A request from a non-empty cart passes the server's guard exactly when the total and the
      tax are both non-zero: a cart so cheap that its tax rounds to 0 is refused. */
  lemma CheckoutGuard(cart: Cart, totalAmount: int, taxAmount: int, now: int)
    requires cart != []
    ensures SalesController.Acceptable(Request(cart, totalAmount, taxAmount, now)) <==> totalAmount != 0 && taxAmount != 0
  {
  }

  /** `filteredProducts`: the listed products whose name or code contains the search term,
      ignoring case, in listing order. */
  function FilteredProducts(products: seq<ListedProduct>, term: string): (r: seq<ListedProduct>)
    ensures Seqs.Subsequence(r, products)
    ensures forall p :: p in r <==> p in products && MatchesSearch(p, term)
  {
    Seqs.FilterMembers(products, (p: ListedProduct) => MatchesSearch(p, term));
    Seqs.FilterSubsequence(products, (p: ListedProduct) => MatchesSearch(p, term));
    Seqs.Filter(products, (p: ListedProduct) => MatchesSearch(p, term))
  }

  // ---------------------------------------------------------------------------------------
  // The cart invariants

  /** Adding keeps product ids distinct and quantities at least 1. */
  lemma AddKeepsWellFormed(cart: Cart, p: ListedProduct)
    requires WellFormed(cart)
    ensures WellFormed(AddToCart(cart, p))
  {
  }

  /** Adding the product as listed keeps every line within its stock. */
  lemma AddKeepsWithinStock(cart: Cart, p: ListedProduct)
    requires WellFormed(cart) && WithinStock(cart)
    requires forall i :: 0 <= i < |cart| && IdOf(cart[i]) == p.productId ==> cart[i].product == p
    ensures WithinStock(AddToCart(cart, p))
  {
    match Find(cart, p.productId)
    case None =>
    case Some(i) =>
      if cart[i].quantity < p.stock {
        var r := Increment(cart, p.productId);
        forall k | 0 <= k < |r| ensures r[k].quantity <= r[k].product.stock || r[k].quantity == 1 {
          if IdOf(cart[k]) == p.productId {
            assert k == i;
          }
        }
      }
  }

  /** Removing keeps the cart well formed, and the named product is gone. */
  lemma RemoveKeepsWellFormed(cart: Cart, id: int)
    requires WellFormed(cart)
    ensures WellFormed(RemoveFromCart(cart, id))
    ensures Find(RemoveFromCart(cart, id), id).None?
  {
    var r := RemoveFromCart(cart, id);
    RemoveDistinct(cart, id);
    forall i | 0 <= i < |r| ensures IdOf(r[i]) != id && r[i].quantity >= 1 {
      assert r[i] in r;
    }
  }

  /** The ids left after removal are still pairwise distinct. */
  lemma {:induction false} RemoveDistinct(cart: Cart, id: int)
    requires forall i, j :: 0 <= i < j < |cart| ==> IdOf(cart[i]) != IdOf(cart[j])
    ensures var r := RemoveFromCart(cart, id);
      forall i, j :: 0 <= i < j < |r| ==> IdOf(r[i]) != IdOf(r[j])
    decreases |cart|
  {
    if cart != [] {
      var init := cart[..|cart| - 1];
      var x := cart[|cart| - 1];
      RemoveDistinct(init, id);
      var f := Seqs.Filter(init, Other(id));
      Seqs.FilterMembers(init, Other(id));
      if Other(id)(x) {
        var r := f + [x];
        assert Seqs.Filter(cart, Other(id)) == r;
        assert RemoveFromCart(init, id) == f;
        forall i, j | 0 <= i < j < |r| ensures IdOf(r[i]) != IdOf(r[j]) {
          if j == |r| - 1 {
            assert r[i] == f[i] && f[i] in f;
            var k :| 0 <= k < |init| && init[k] == f[i];
            assert cart[k] == init[k] && r[j] == cart[|cart| - 1];
          } else {
            assert r[i] == f[i] && r[j] == f[j];
          }
        }
      }
    }
  }

  /** Changing a quantity keeps the cart well formed and every line within its stock. */
  lemma UpdateKeepsInvariants(cart: Cart, id: int, delta: int)
    requires WellFormed(cart)
    ensures WellFormed(UpdateQuantity(cart, id, delta))
    ensures WithinStock(cart) ==> WithinStock(UpdateQuantity(cart, id, delta))
  {
    UpdateKeepsLines(cart, id, delta);
  }

  // ---------------------------------------------------------------------------------------
  // The cart and the checkout transaction

  /** In a cart with distinct product ids the payload asks for each product exactly the
      quantity of its line. */
  lemma {:induction false} PayloadQuantity(cart: Cart, k: int)
    requires forall i, j :: 0 <= i < j < |cart| ==> IdOf(cart[i]) != IdOf(cart[j])
    requires 0 <= k < |cart|
    ensures SalesModel.QtyFor(Payload(cart), IdOf(cart[k])) == cart[k].quantity
    decreases |cart|
  {
    var init := cart[..|cart| - 1];
    var id := IdOf(cart[k]);
    assert Payload(cart)[..|cart| - 1] == Payload(init);
    if k == |cart| - 1 {
      SalesModel.QtyForUnnamed(Payload(init), id);
    } else {
      PayloadQuantity(init, k);
    }
  }

  /** When the sale from a well-formed cart commits, each product in the cart loses exactly its
      cart quantity, and every other product keeps its stock. */
  lemma CheckoutDebitsCart(cart: Cart, products: map<int, Db.Product>, id: int)
    requires WellFormed(cart)
    requires SalesModel.Apply(products, Payload(cart)).Ok? && id in products
    ensures Find(cart, id).Some? ==>
      SalesModel.Apply(products, Payload(cart)).value[id].stock == products[id].stock - cart[Find(cart, id).value].quantity
    ensures Find(cart, id).None? ==> SalesModel.Apply(products, Payload(cart)).value[id] == products[id]
  {
    SalesModel.ApplyStock(products, Payload(cart));
    match Find(cart, id)
    case Some(k) => PayloadQuantity(cart, k);
    case None => SalesModel.QtyForUnnamed(Payload(cart), id);
  }
}
