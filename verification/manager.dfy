/**
 A mutable cart manager whose methods mirror the JavaScript class one to one:
 each holds the current state, replaces it by the pure transition of module
 CartModel, and returns the new state, as every mutating call of the JavaScript
 class does.
 */
module CartManagerClass {
  import opened CartModel

  class CartManager<P> {
    var state: CartState<P>

    /** A new manager starts closed and empty. */
    constructor()
      ensures state == Initial()
      ensures WellFormed(state)
    {
      state := Initial();
    }

    method GetState() returns (r: CartState<P>)
      ensures r == state
    {
      r := state;
    }

    method Open() returns (r: CartState<P>)
      modifies this
      ensures r == state && r.open && r.items == old(state).items
    {
      state := CartModel.Open(state);
      r := state;
    }

    method Close() returns (r: CartState<P>)
      modifies this
      ensures r == state && !r.open && r.items == old(state).items
    {
      state := CartModel.Close(state);
      r := state;
    }

    method ProductIsInTheCart(p: Product<P>) returns (b: bool)
      ensures b <==> HasId(state.items, p.id)
    {
      b := CartModel.ProductIsInTheCart(state, p);
    }

    method HasProducts() returns (b: bool)
      ensures b <==> |state.items| > 0
    {
      b := CartModel.HasProducts(state);
    }

    method AddProduct(p: Product<P>) returns (r: CartState<P>)
      modifies this
      ensures r == state
      ensures r == CartModel.AddProduct(old(state), p)
      ensures old(WellFormed(state)) ==> WellFormed(state)
    {
      state := CartModel.AddProduct(state, p);
      r := state;
    }

    method RemoveProduct(productId: Id) returns (r: CartState<P>)
      modifies this
      ensures r == state
      ensures r == CartModel.RemoveProduct(old(state), productId)
      ensures old(WellFormed(state)) ==> WellFormed(state)
    {
      state := CartModel.RemoveProduct(state, productId);
      r := state;
    }

    method ClearProducts() returns (r: CartState<P>)
      modifies this
      ensures r == state && r.items == [] && r.open == old(state).open
    {
      state := CartModel.ClearProducts(state);
      r := state;
    }

    /** clearProducts followed by close. */
    method ClearCart() returns (r: CartState<P>)
      modifies this
      ensures r == state && r == Initial()
    {
      var _ := ClearProducts();
      var _ := Close();
      r := state;
    }
  }
}
