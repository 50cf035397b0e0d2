/** The three cart transitions of the cart provider. Each one either commits a
    new cart (and writes it to storage) or leaves the state exactly as it was,
    reporting what happened as an `Outcome`. The two remote reads are inputs:
    `catalog` is the product record fetched by id (`None` when the fetch fails)
    and `stock` is the reply of the stock read for the product. */
module CartProvider {
  import opened CartTypes
  import opened CartSeq

  /** Makes `cart` the current cart and writes it to storage. */
  function Commit(cart: Cart): (r: Step)
    ensures r.outcome == Committed
    ensures r.state.cart == cart && r.state.stored == Some(cart)
  {
    Step(State(cart, Some(cart)), Committed)
  }

  /** Sets the amount of product `productId` to `amount`, checked against the
      stock level. A non-positive amount is ignored without a message. */
  function UpdateProductAmount(s: State, productId: int, amount: int, stock: StockReply): (r: Step)
    // whatever does not commit leaves cart and storage as they were
    ensures r.outcome != Committed ==> r.state == s
    ensures r.outcome == Ignored <==> amount <= 0
    ensures amount > 0 && !InCart(s.cart, productId) ==> r.outcome == Failed(UpdateError)
    ensures amount > 0 && InCart(s.cart, productId) && stock.StockUnavailable? ==>
              r.outcome == Failed(stock.message)
    ensures amount > 0 && InCart(s.cart, productId) && stock.InStock? && amount > stock.level ==>
              r.outcome == Failed(OutOfStockError)
    ensures r.outcome == Committed <==>
              amount > 0 && InCart(s.cart, productId) && stock.InStock? && amount <= stock.level
    // a commit changes exactly the amounts of the matching lines, in place
    ensures r.outcome == Committed ==>
              && r.state.stored == Some(r.state.cart)
              && |r.state.cart| == |s.cart|
              && (forall i :: 0 <= i < |s.cart| && s.cart[i].id == productId ==>
                    r.state.cart[i] == s.cart[i].(amount := amount))
              && (forall i :: 0 <= i < |s.cart| && s.cart[i].id != productId ==>
                    r.state.cart[i] == s.cart[i])
  {
    if amount <= 0 then Step(s, Ignored)
    else if Find(s.cart, productId).None? then Step(s, Failed(UpdateError))
    else match stock
      case StockUnavailable(message) => Step(s, Failed(message))
      case InStock(level) =>
        if amount > level then Step(s, Failed(OutOfStockError))
        else Commit(SetAmount(s.cart, productId, amount))
  }

  /** Removes every line of product `productId`; an absent product is an error. */
  function RemoveProduct(s: State, productId: int): (r: Step)
    ensures !InCart(s.cart, productId) ==> r == Step(s, Failed(RemoveError))
    ensures InCart(s.cart, productId) ==>
              && r.outcome == Committed
              && r.state.cart == RemoveAll(s.cart, productId)
              && r.state.stored == Some(r.state.cart)
              && !InCart(r.state.cart, productId)
              && (forall p :: p in r.state.cart <==> p in s.cart && p.id != productId)
              && |r.state.cart| < |s.cart|
  {
    if Find(s.cart, productId).None? then Step(s, Failed(RemoveError))
    else
      CountPresent(s.cart, productId);
      Commit(RemoveAll(s.cart, productId))
  }

  /** Adds one unit of product `productId`: a product already in the cart goes
      through `UpdateProductAmount` with its amount plus one; a new one is
      appended with amount 1 from the fetched catalog record. */
  function AddProduct(s: State, productId: int, catalog: Option<Product>, stock: StockReply): (r: Step)
    ensures r.outcome != Committed ==> r.state == s
    ensures !InCart(s.cart, productId) && catalog.None? ==> r.outcome == Failed(AddError)
    ensures !InCart(s.cart, productId) && catalog.Some? ==>
              && r.outcome == Committed
              && r.state.stored == Some(r.state.cart)
              && |r.state.cart| == |s.cart| + 1
              && r.state.cart[..|s.cart|] == s.cart
              && r.state.cart[|s.cart|] == catalog.value.(amount := 1)
  {
    match Find(s.cart, productId)
    case Some(line) => UpdateProductAmount(s, productId, line.amount + 1, stock)
    case None =>
      match catalog
      case None => Step(s, Failed(AddError))
      case Some(record) => Commit(s.cart + [record.(amount := 1)])
  }
}
