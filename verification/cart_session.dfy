/** A session: the user's actions applied one after another to the cart
    provider's state, each with the replies its remote reads received. */
module CartSession {
  import opened CartTypes
  import opened CartProvider
  import opened CartProperties

  datatype Action =
    | Add(productId: int, catalog: Option<Product>, stock: StockReply)
    | Remove(productId: int)
    | Update(productId: int, amount: int, stock: StockReply)

  /** One action; like every transition, one that does not commit changes nothing. */
  function Apply(s: State, a: Action): (r: Step)
    ensures r.outcome != Committed ==> r.state == s
  {
    match a
    case Add(id, catalog, stock) => AddProduct(s, id, catalog, stock)
    case Remove(id) => RemoveProduct(s, id)
    case Update(id, amount, stock) => UpdateProductAmount(s, id, amount, stock)
  }

  /** The catalog, when it answers, answers with the product asked for. */
  predicate FaithfulCatalog(a: Action) {
    a.Add? && a.catalog.Some? ==> a.catalog.value.id == a.productId
  }

  /** What a session leaves behind: the final state and, in order, what the
      user was shown after each action. */
  datatype Trace = Trace(final: State, outcomes: seq<Outcome>)

  /** Applies the actions in order. */
  function Run(s: State, actions: seq<Action>): (r: Trace)
    ensures |r.outcomes| == |actions|
    ensures (forall k :: 0 <= k < |r.outcomes| ==> r.outcomes[k] != Committed) ==> r.final == s
    decreases |actions|
  {
    if actions == [] then Trace(s, [])
    else
      var step := Apply(s, actions[0]);
      var rest := Run(step.state, actions[1..]);
      var outcomes := [step.outcome] + rest.outcomes;
      assert outcomes[0] == step.outcome;
      assert forall k :: 0 <= k < |rest.outcomes| ==> outcomes[k + 1] == rest.outcomes[k];
      Trace(rest.final, outcomes)
  }

  /** Every session whose catalog answers with the product asked for keeps the
      state well formed: ids stay unique, every line holds at least one unit
      and storage mirrors the cart. */
  lemma {:induction false} RunPreservesWellFormed(s: State, actions: seq<Action>)
    requires WellFormed(s)
    requires forall k :: 0 <= k < |actions| ==> FaithfulCatalog(actions[k])
    ensures WellFormed(Run(s, actions).final)
    decreases |actions|
  {
    if actions != [] {
      var a := actions[0];
      assert FaithfulCatalog(a);
      match a {
        case Add(id, catalog, stock) => AddPreservesWellFormed(s, id, catalog, stock);
        case Remove(id) => RemovePreservesWellFormed(s, id);
        case Update(id, amount, stock) => UpdatePreservesWellFormed(s, id, amount, stock);
      }
      var next := Apply(s, a).state;
      assert forall k :: 0 <= k < |actions[1..]| ==> FaithfulCatalog(actions[1..][k]) by {
        forall k | 0 <= k < |actions[1..]| ensures FaithfulCatalog(actions[1..][k]) {
          assert actions[1..][k] == actions[k + 1];
        }
      }
      RunPreservesWellFormed(next, actions[1..]);
    }
  }
}
