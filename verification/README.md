# Rocket Shoes cart, modelled in Dafny

This project models the cart state machine of the Rocket Shoes storefront: the
`CartProvider` hook in `src/hooks/useCart.tsx`. The cart is an ordered sequence of
product lines. Each line is identified by the product `id` and carries an `amount`
(the number of units). Three transitions act on the cart:

- `addProduct` adds one unit of a product;
- `removeProduct` drops a product's line;
- `updateProductAmount` sets a product's amount, checked against the remote stock.

Each transition does one of two things. It can commit a new cart, which also
rewrites the copy in local storage. Or it can leave cart and storage as they
were, and either show an error notification or stay silent. This holds as long
as the storage write succeeds; a failing write is outside the model (see
"## Left out").

The model is functional. A `State` holds the in-memory cart and the copy last
written to storage. Each transition is a pure function from a `State` to a
`Step`: the new state plus an `Outcome`. The outcome is `Committed`, `Ignored`
or `Failed(message)`, and the messages are the storefront's own Portuguese
strings. The two remote reads are inputs:

- the catalog read `products/{id}` is an `Option<Product>`, where `None` means the fetch failed;
- the stock read `stock/{id}` is a `StockReply`: the stock level, or the message of the error the read failed with.

Files:

- `cart_types.dfy` (module `CartTypes`): products, cart, state, outcomes, the
  error messages, and the invariants. `UniqueIds` means at most one line per id.
  `PositiveAmounts` means every line holds at least one unit. `Mirrored` means
  storage holds the cart, or nothing was ever written and the cart is empty.
- `cart_seq.dfy` (module `CartSeq`): the sequence operations the hook uses:
  first match (`find`), removing every line of an id (`filter`), and setting the
  amount of every line of an id (`map`). It also holds their algebraic laws.
- `cart_provider.dfy` (module `CartProvider`): the three transitions.
- `cart_properties.dfy` (module `CartProperties`): lemmas relating the
  transitions to each other and to the invariants.
- `cart_session.dfy` (module `CartSession`): a sequence of user actions, and the
  proof that every session whose catalog answers with the product asked for
  keeps the state well formed.

Two behaviours of the code are worth stating plainly:

- A product not yet in the cart is appended with amount 1 without any stock
  read, even when its stock level is 0 (`src/hooks/useCart.tsx:46-52`). Only
  adding a product already in the cart goes through the stock check.
  `CartProperties.AddAbsentIgnoresStock` states this.
- When the stock read fails, the notification shows the message of the error
  the read threw (`error.message`, line 102). The model carries that message in
  `StockUnavailable(message)`.

## Model

| member | source | states |
|---|---|---|
| CartSeq.FindIndex | src/hooks/useCart.tsx:37 | the search finds nothing exactly when no line has the id; otherwise it finds the first line with the id |
| CartSeq.Find | src/hooks/useCart.tsx:37 | the line found is the first line of the cart with the id asked for; nothing is found exactly when the id is absent |
| CartSeq.RemoveAll | src/hooks/useCart.tsx:64 | a product is kept iff it was in the cart with a different id; the result has no line with the id; its length drops by the number of matching lines |
| CartSeq.RemoveAllAppend | src/hooks/useCart.tsx:64 | removal distributes over concatenation, so the lines that remain keep their relative order |
| CartSeq.RemoveAllSingle | src/hooks/useCart.tsx:64 | a single line is kept iff its id differs from the removed id |
| CartSeq.RemoveAllAbsent | src/hooks/useCart.tsx:64 | removing an id that no line has returns the cart unchanged |
| CartSeq.RemoveAllUnique | src/hooks/useCart.tsx:64 | removal keeps ids unique |
| CartSeq.CountUnique | src/hooks/useCart.tsx:60-64 | in a cart with unique ids, a present id has exactly one line and an absent id has none |
| CartSeq.CountPresent | src/hooks/useCart.tsx:60-64 | a present id has at least one line |
| CartSeq.SetAmount | src/hooks/useCart.tsx:93-97 | same length; each matching line gets the new amount and keeps its other fields; every other line is identical |
| CartSeq.SetAmountIds | src/hooks/useCart.tsx:93-97 | setting amounts leaves the sequence of ids unchanged |
| CartProvider.UpdateProductAmount | src/hooks/useCart.tsx:73-104 | amount <= 0 is ignored silently. An absent id fails with the quantity-change message. A failed stock read fails with its own message. An amount above stock fails with the out-of-stock message. It commits iff the amount is positive, the id is present and the amount is within stock; a commit changes only the matching lines' amounts, in place, and storage is written with the new cart. Anything that does not commit leaves state and storage unchanged |
| CartProvider.RemoveProduct | src/hooks/useCart.tsx:58-71 | an absent id fails with the removal message and changes nothing. A present id commits exactly the cart with every line of that id removed (`RemoveAll`): shorter, with no line of that id, and keeping every other line; storage is written with that cart, even when it is empty |
| CartProvider.AddProduct | src/hooks/useCart.tsx:35-56 | for an absent id, a failed catalog read fails with the addition message and changes nothing. A successful read appends the record with amount 1 after an untouched prefix and writes the new cart to storage. Anything that does not commit changes nothing |
| CartProperties.UpdateAbsentIgnoresStock | src/hooks/useCart.tsx:80-86 | for an id not in the cart the result does not depend on the stock reply, and the state is unchanged |
| CartProperties.UpdateStockBound | src/hooks/useCart.tsx:86-97 | after a committed update the stock read succeeded, the order of ids is unchanged, and every line of the product holds between 1 and the stock level |
| CartProperties.RemoveKeepsOrder | src/hooks/useCart.tsx:64 | a line that survives removal sits between what survives of its prefix and of its suffix |
| CartProperties.RemoveDropsOneLine | src/hooks/useCart.tsx:60-64 | with unique ids, removing a present id drops exactly one line; an absent id drops none |
| CartProperties.RemoveTwice | src/hooks/useCart.tsx:60-69 | a second removal of the same id fails with the removal message and leaves the state unchanged |
| CartSeq.FirstMatchIsFound | src/hooks/useCart.tsx:37 | the first line carrying an id is the one the search returns |
| CartProperties.AddPresentIsUpdate | src/hooks/useCart.tsx:37-43 | adding a present product is the update to its first line's amount plus one |
| CartProperties.AddPresentIncrements | src/hooks/useCart.tsx:37-43 | in a well-formed cart, adding a present product commits iff amount + 1 is within stock, and then increments exactly that line; when the stock level is below amount + 1 it fails out of stock and changes nothing |
| CartProperties.AddAbsentIgnoresStock | src/hooks/useCart.tsx:46-52 | adding a product not in the cart does not depend on the stock reply |
| CartProperties.AddPresentIgnoresCatalog | src/hooks/useCart.tsx:37-44 | adding a product already in the cart does not depend on the catalog reply |
| CartProperties.UpdatePreservesWellFormed | src/hooks/useCart.tsx:93-100 | updating keeps ids unique, amounts positive and storage mirroring the cart |
| CartProperties.RemovePreservesWellFormed | src/hooks/useCart.tsx:64-67 | removing keeps ids unique, amounts positive and storage mirroring the cart |
| CartProperties.AddPreservesWellFormed | src/hooks/useCart.tsx:35-56 | if the catalog answers with the product asked for, adding keeps ids unique, amounts positive and storage mirroring the cart |
| CartProperties.AddForeignRecordDuplicates | src/hooks/useCart.tsx:46-49 | for any cart, adding an absent id whose catalog record carries an id already in the cart commits a cart with a duplicated id |
| CartProperties.UpdateAgainstStockExample | src/hooks/useCart.tsx:86-97 | line 1 holds 2 units and stock is 5: updating to 5 commits that amount; updating to 6 fails out of stock and changes nothing |
| CartSession.Apply | src/hooks/useCart.tsx:15-20 | every action that does not commit leaves the state unchanged |
| CartSession.Run | src/hooks/useCart.tsx:15-20 | a session yields one outcome per action; a session in which nothing commits ends in the state it began in |
| CartSession.RunPreservesWellFormed | src/hooks/useCart.tsx:15-20 | every session whose catalog answers faithfully keeps the state well formed |

## Left out

- React plumbing: the imports, `CartProviderProps`, context creation, `useState`, `useContext` and the provider element (lines 1-8, 22-24 and 106-119). The cart is an explicit `State` value instead. The `CartContextData` interface (lines 15-20) is kept: `CartSession` drives its three operations.
- The HTTP requests (lines 46 and 86) are network I/O. Their replies are parameters of the transitions.
- `localStorage` and JSON serialisation (lines 26-29, 52, 67, 100) are a foreign storage API and a library serialiser. Storage is modelled as the decoded cart last written. No JSON round trip is stated.
- The initial load from storage (lines 25-33). Parsing a corrupt stored value throws uncaught, which is outside the model. Sessions instead start from any well-formed state.
- Storage writes are assumed to succeed. In the source, `setCart` (lines 51, 66, 99) runs before `localStorage.setItem` (lines 52, 67, 100). If `setItem` throws (storage full or forbidden), the in-memory cart has already changed, storage keeps the old copy, and the catch still shows an error: the addition message (line 54), the removal message (line 69) or the exception's own message (line 102). The model does not have this case: there, a transition that shows an error never changes the cart, and a commit always writes storage.
- `toast.error` (lines 54, 69, 102) is a side effect. It is modelled as the `Failed(message)` outcome.
- Overlapping asynchronous calls that close over a stale cart are concurrency. Each transition here runs alone, from the state the previous one left.
- `title`, `price` and `image` are opaque payload, copied unchanged. `price` is a floating-point number in the source and a `real` here. It is never computed with.
- Ids and amounts are JavaScript numbers in the source. They are unbounded integers here, so fractional or non-finite values are not modelled.
