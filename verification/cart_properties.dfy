/** Properties of the cart transitions that relate several calls, or a call to
    the invariants of a well-formed cart. */
module CartProperties {
  import opened CartTypes
  import opened CartSeq
  import opened CartProvider

  /** For a product not in the cart the stock reply plays no part: the stock is
      never read. */
  lemma UpdateAbsentIgnoresStock(s: State, productId: int, amount: int, stock1: StockReply, stock2: StockReply)
    requires !InCart(s.cart, productId)
    ensures UpdateProductAmount(s, productId, amount, stock1) == UpdateProductAmount(s, productId, amount, stock2)
    ensures UpdateProductAmount(s, productId, amount, stock1).state == s
  {
  }

  /** After a committed update every line of the product holds between one unit
      and the stock level, and the order of ids is that of the old cart. */
  lemma UpdateStockBound(s: State, productId: int, amount: int, stock: StockReply)
    requires UpdateProductAmount(s, productId, amount, stock).outcome == Committed
    ensures stock.InStock?
    ensures var c := UpdateProductAmount(s, productId, amount, stock).state.cart;
            && Ids(c) == Ids(s.cart)
            && forall i :: 0 <= i < |c| && c[i].id == productId ==> 1 <= c[i].amount <= stock.level
  {
  }

  /** Removal keeps the surviving lines in their relative order: a line that
      survives stays between what survives of its prefix and of its suffix. */
  lemma RemoveKeepsOrder(s: State, productId: int, a: Cart, p: Product, b: Cart)
    requires s.cart == a + [p] + b
    requires p.id != productId
    ensures RemoveProduct(s, productId).state.cart ==
              if InCart(s.cart, productId)
              then RemoveAll(a, productId) + [p] + RemoveAll(b, productId)
              else s.cart
  {
    if InCart(s.cart, productId) {
      RemoveAllAppend(a + [p], b, productId);
      RemoveAllAppend(a, [p], productId);
      RemoveAllSingle(p, productId);
    }
  }

  /** In a cart with unique ids, removing a present product drops exactly one
      line; removing an absent one drops none. */
  lemma RemoveDropsOneLine(s: State, productId: int)
    requires UniqueIds(s.cart)
    ensures |RemoveProduct(s, productId).state.cart| ==
              if InCart(s.cart, productId) then |s.cart| - 1 else |s.cart|
  {
    CountUnique(s.cart, productId);
  }

  /** Removing twice is an error the second time and changes nothing more. */
  lemma RemoveTwice(s: State, productId: int)
    requires InCart(s.cart, productId)
    ensures var once := RemoveProduct(s, productId);
            RemoveProduct(once.state, productId) == Step(once.state, Failed(RemoveError))
  {
  }

  /** Adding a product already in the cart is the update of that product to the
      amount of its first line plus one. */
  lemma {:induction false} AddPresentIsUpdate(s: State, productId: int, i: nat, catalog: Option<Product>, stock: StockReply)
    requires i < |s.cart| && s.cart[i].id == productId
    requires !InCart(s.cart[..i], productId)
    ensures AddProduct(s, productId, catalog, stock) ==
              UpdateProductAmount(s, productId, s.cart[i].amount + 1, stock)
  {
    FirstMatchIsFound(s.cart, productId, i);
    AddFoundDelegates(s, productId, s.cart[i].amount + 1, catalog, stock);
  }

  /** Adding a product whose search finds a line holding `amount - 1` units is
      the update to `amount`. */
  lemma AddFoundDelegates(s: State, productId: int, amount: int, catalog: Option<Product>, stock: StockReply)
    requires Find(s.cart, productId).Some? && Find(s.cart, productId).value.amount + 1 == amount
    ensures AddProduct(s, productId, catalog, stock) == UpdateProductAmount(s, productId, amount, stock)
  {
  }

  /** In a well-formed cart, adding a present product adds one unit to its line
      when the stock allows it and fails as out of stock otherwise; the catalog
      is never read. */
  lemma AddPresentIncrements(s: State, productId: int, i: nat, catalog: Option<Product>, stock: StockReply)
    requires WellFormed(s)
    requires i < |s.cart| && s.cart[i].id == productId
    ensures var r := AddProduct(s, productId, catalog, stock);
            && (r.outcome == Committed <==> stock.InStock? && s.cart[i].amount + 1 <= stock.level)
            && (r.outcome == Committed ==>
                  r.state == State(s.cart[i := s.cart[i].(amount := s.cart[i].amount + 1)],
                                   Some(s.cart[i := s.cart[i].(amount := s.cart[i].amount + 1)])))
            && (stock.InStock? && s.cart[i].amount + 1 > stock.level ==>
                  r == Step(s, Failed(OutOfStockError)))
  {
  }

  /** Adding a product not in the cart does not read the stock: a new product
      is appended whatever the stock level. */
  lemma AddAbsentIgnoresStock(s: State, productId: int, catalog: Option<Product>, stock1: StockReply, stock2: StockReply)
    requires !InCart(s.cart, productId)
    ensures AddProduct(s, productId, catalog, stock1) == AddProduct(s, productId, catalog, stock2)
  {
  }

  /** Adding a product already in the cart does not read the catalog. */
  lemma AddPresentIgnoresCatalog(s: State, productId: int, catalog1: Option<Product>, catalog2: Option<Product>, stock: StockReply)
    requires InCart(s.cart, productId)
    ensures AddProduct(s, productId, catalog1, stock) == AddProduct(s, productId, catalog2, stock)
  {
  }

  /** Updating keeps a cart well formed. */
  lemma UpdatePreservesWellFormed(s: State, productId: int, amount: int, stock: StockReply)
    requires WellFormed(s)
    ensures WellFormed(UpdateProductAmount(s, productId, amount, stock).state)
  {
  }

  /** Removing keeps a cart well formed. */
  lemma RemovePreservesWellFormed(s: State, productId: int)
    requires WellFormed(s)
    ensures WellFormed(RemoveProduct(s, productId).state)
  {
    if InCart(s.cart, productId) {
      RemoveAllUnique(s.cart, productId);
      var c := RemoveProduct(s, productId).state.cart;
      forall i | 0 <= i < |c| ensures c[i].amount >= 1 {
        assert c[i] in s.cart;
      }
    }
  }

  /** Adding keeps a cart well formed, provided the catalog answers with the
      record of the product that was asked for. */
  lemma AddPreservesWellFormed(s: State, productId: int, catalog: Option<Product>, stock: StockReply)
    requires WellFormed(s)
    requires catalog.Some? ==> catalog.value.id == productId
    ensures WellFormed(AddProduct(s, productId, catalog, stock).state)
  {
  }

  /** A catalog record whose id differs from the one asked for, and which is
      already in the cart, duplicates a line: uniqueness of ids rests on the
      catalog answering faithfully. */
  lemma AddForeignRecordDuplicates(s: State, productId: int, record: Product, stock: StockReply)
    requires !InCart(s.cart, productId) && InCart(s.cart, record.id)
    ensures var r := AddProduct(s, productId, Some(record), stock);
            r.outcome == Committed && !UniqueIds(r.state.cart)
  {
  }

  /** One line of product 1 holding two units, stock five: asking for five
      units succeeds, asking for six fails and leaves the cart as it was. */
  lemma UpdateAgainstStockExample()
    ensures var line := Product(1, "Tenis", 179.9, "tenis.jpg", 2);
            var s := State([line], Some([line]));
            && UpdateProductAmount(s, 1, 5, InStock(5)) == Step(State([line.(amount := 5)], Some([line.(amount := 5)])), Committed)
            && UpdateProductAmount(s, 1, 6, InStock(5)) == Step(s, Failed(OutOfStockError))
  {
    var line := Product(1, "Tenis", 179.9, "tenis.jpg", 2);
    var s := State([line], Some([line]));
    assert InCart(s.cart, 1) by { assert s.cart[0].id == 1; }
    var c := UpdateProductAmount(s, 1, 5, InStock(5)).state.cart;
    assert c == [line.(amount := 5)];
  }
}
