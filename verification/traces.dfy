/**
 Sequences of cart-manager calls. A session is a list of calls applied, in
 order, to a state; these properties hold for every reachable state, not just
 one step.
 */
module CartTraces {
  import opened CartModel

  /** One call on the cart manager's public interface that changes its state. */
  datatype Call<P> =
    | OpenCall
    | CloseCall
    | AddCall(product: Product<P>)
    | RemoveCall(productId: Id)
    | ClearProductsCall
    | ClearCartCall

  function Apply<P>(s: CartState<P>, c: Call<P>): (r: CartState<P>)
    ensures WellFormed(s) ==> WellFormed(r)
    ensures c.AddCall? || c.RemoveCall? || c.ClearProductsCall? ==> r.open == s.open
    ensures c.OpenCall? || c.CloseCall? ==> r.items == s.items
  {
    match c
    case OpenCall => Open(s)
    case CloseCall => Close(s)
    case AddCall(p) => AddProduct(s, p)
    case RemoveCall(id) => RemoveProduct(s, id)
    case ClearProductsCall => ClearProducts(s)
    case ClearCartCall => ClearCart(s)
  }

  function Run<P>(s: CartState<P>, calls: seq<Call<P>>): CartState<P>
    decreases |calls|
  {
    if |calls| == 0 then s else Run(Apply(s, calls[0]), calls[1..])
  }

  /** Every call keeps the invariant, so any session keeps it. */
  lemma {:induction false} RunPreservesWellFormed<P>(s: CartState<P>, calls: seq<Call<P>>)
    requires WellFormed(s)
    ensures WellFormed(Run(s, calls))
    decreases |calls|
  {
    if |calls| > 0 {
      RunPreservesWellFormed(Apply(s, calls[0]), calls[1..]);
    }
  }

  /** No state a fresh manager can reach holds two items with the same id. */
  lemma ReachableStatesAreWellFormed<P>(calls: seq<Call<P>>)
    ensures WellFormed(Run(Initial(), calls))
  {
    RunPreservesWellFormed(Initial(), calls);
  }

  /** The items never depend on whether the cart is shown. */
  lemma {:induction false} ItemsIgnoreVisibility<P>(s: CartState<P>, shown: bool, calls: seq<Call<P>>)
    ensures Run(s, calls).items == Run(s.(open := shown), calls).items
    decreases |calls|
  {
    if |calls| > 0 {
      var t := Apply(s, calls[0]);
      var u := Apply(s.(open := shown), calls[0]);
      assert u == t.(open := u.open);
      ItemsIgnoreVisibility(t, u.open, calls[1..]);
    }
  }

  /** A session that ends with clearCart always ends in the initial state. */
  lemma {:induction false} ClearCartResets<P>(s: CartState<P>, calls: seq<Call<P>>)
    ensures Run(s, calls + [ClearCartCall]) == Initial()
    decreases |calls|
  {
    if |calls| == 0 {
      assert calls + [ClearCartCall] == [ClearCartCall];
    } else {
      assert (calls + [ClearCartCall])[1..] == calls[1..] + [ClearCartCall];
      ClearCartResets(Apply(s, calls[0]), calls[1..]);
    }
  }
}
