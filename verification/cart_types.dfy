/** The data of the shopping cart: line items, the cart itself, the replies of
    the two remote reads and the outcome of a transition. */
module CartTypes {

  datatype Option<+T> = None | Some(value: T)

  /** One cart line. `title`, `price` and `image` are payload that the cart
      operations copy unchanged; only `id` and `amount` take part in the logic. */
  datatype Product = Product(id: int, title: string, price: real, image: string, amount: int)

  /** The cart, in insertion order. */
  type Cart = seq<Product>

  /** Reply of the stock read for one product: either the number of units in
      stock or the message of the error the read failed with. */
  datatype StockReply = InStock(level: int) | StockUnavailable(message: string)

  /** What the user sees after a transition: nothing (the new cart was committed,
      or the request was silently ignored) or an error notification. */
  datatype Outcome = Committed | Ignored | Failed(message: string)

  /** The in-memory cart together with the copy last written to storage;
      `stored == None` means nothing has been written yet. */
  datatype State = State(cart: Cart, stored: Option<Cart>)

  /** A transition's result: the state afterwards and what the user is shown. */
  datatype Step = Step(state: State, outcome: Outcome)

  const AddError: string := "Erro na adição do produto"
  const RemoveError: string := "Erro na remoção do produto"
  const UpdateError: string := "Erro na alteração de quantidade do produto"
  const OutOfStockError: string := "Quantidade solicitada fora de estoque"

  /** Some line of `cart` carries `id`. */
  predicate InCart(cart: Cart, id: int) {
    exists i :: 0 <= i < |cart| && cart[i].id == id
  }

  /** At most one line per id. */
  predicate UniqueIds(cart: Cart) {
    forall i, j :: 0 <= i < j < |cart| ==> cart[i].id != cart[j].id
  }

  /** Every line holds at least one unit. */
  predicate PositiveAmounts(cart: Cart) {
    forall i :: 0 <= i < |cart| ==> cart[i].amount >= 1
  }

  /** Storage mirrors the in-memory cart: either it holds exactly the cart, or
      nothing was ever written and the cart is still empty. */
  predicate Mirrored(s: State) {
    s.stored == Some(s.cart) || (s.stored == None && s.cart == [])
  }

  /** The state a well-behaved session stays in. */
  predicate WellFormed(s: State) {
    UniqueIds(s.cart) && PositiveAmounts(s.cart) && Mirrored(s)
  }

  /** The ids of the cart's lines, in order. */
  function Ids(cart: Cart): (r: seq<int>)
    ensures |r| == |cart|
    ensures forall i :: 0 <= i < |cart| ==> r[i] == cart[i].id
  {
    if cart == [] then [] else [cart[0].id] + Ids(cart[1..])
  }
}
